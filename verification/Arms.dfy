/** The lifecycle of an arm's containers and ClickHouse objects across an interleaved sweep in
    which any step may fail. */
module Arms {
  function ToSet(s: seq<string>): (r: set<string>)
    ensures forall x :: x in r <==> x in s
  {
    set x | x in s
  }

  type Obj = string
  type Name = string

  /** The statements of the arm's two SQL files and the containers it runs. An arm declares the
      files as a pair, and its teardown drops whatever its creation makes. */
  datatype Arm = Arm(declares: bool, creates: seq<Obj>, drops: seq<Obj>, containers: seq<Name>) {
    predicate Valid() {
      && (!declares ==> creates == [])
      && forall o | o in creates :: o in drops
    }
  }

  /** How a step ends, and whether a statement reported as failed took effect all the same. */
  datatype Outcome = Done | Refused(effect: bool) | Panicked(effect: bool) {
    predicate TookEffect() { Done? || effect }
  }

  datatype Kind = Plain | Dropping | Removing

  /** How the k-th step of a sweep ends, were it a drop, a container's removal, or any other step. */
  type Fate = (Kind, nat) -> Outcome

  // ----- what a sweep does, step by step

  /** One step. The n-th drop of an arm's teardown is numbered; a container that finds its name taken
      does not start. */
  datatype Deed =
    | Other(outcome: Outcome)
    | Create(obj: Obj, outcome: Outcome)
    | Drop(arm: nat, nth: nat, obj: Obj, outcome: Outcome)
    | Remove(name: Name, outcome: Outcome)
    | Build(name: Name, outcome: Outcome)
    | Start(name: Name, outcome: Outcome)
    | Clash(name: Name)
  {
    function Kind(): Kind { if Drop? then Dropping else if Remove? then Removing else Plain }

    predicate Failed() { Clash? || !outcome.Done? }
  }

  /** What stands and runs; the arms whose last teardown saw a drop fail; and the containers that
      outlived the last attempt to remove them. */
  datatype State = State(live: set<Obj>, running: set<Name>, dirty: set<nat>, strays: set<Name>) {
    /** The containers that run without their removal having failed. */
    function Loose(): set<Name> { running - strays }
  }

  function After(s: State, d: Deed): State {
    match d
    case Other(_) => s
    case Clash(_) => s
    case Build(_, _) => s
    case Create(o, outcome) => if outcome.TookEffect() then s.(live := s.live + {o}) else s
    case Drop(arm, nth, o, outcome) =>
      var before := if nth == 0 then s.dirty - {arm} else s.dirty;
      s.(live := if outcome.TookEffect() then s.live - {o} else s.live,
         dirty := if outcome.Done? then before else before + {arm})
    case Remove(n, outcome) =>
      if outcome.TookEffect() then s.(running := s.running - {n}, strays := s.strays - {n})
      else if n in s.running then s.(strays := s.strays + {n})
      else s
    case Start(n, outcome) => if outcome.TookEffect() then s.(running := s.running + {n}) else s
  }

  /** Nothing stands when a sweep starts. */
  function StateOf(history: seq<Deed>): State {
    if history == [] then State({}, {}, {}, {})
    else After(StateOf(history[..|history| - 1]), history[|history| - 1])
  }

  /** A step ends as the oracle says. A name is taken only by a container that outlived its removal, and
      an object is dropped only while no other container runs. */
  predicate IsLawful(fate: Fate, s: State, d: Deed, k: nat) {
    && (if d.Clash? then d.name in s.strays else d.outcome == fate(d.Kind(), k))
    && (d.Start? ==> d.name !in s.running)
    && (d.Drop? ==> s.Loose() == {})
  }

  ghost predicate Lawful(fate: Fate, history: seq<Deed>) {
    forall k | 0 <= k < |history| :: IsLawful(fate, StateOf(history[..k]), history[k], k)
  }

  /** No step but the removal of a container fails between two points. */
  ghost predicate Clean(history: seq<Deed>, from: nat, to: nat)
    requires to <= |history|
  {
    forall k | from <= k < to :: history[k].Remove? || !history[k].Failed()
  }

  // ----- what a failed step does to a repetition

  /** Measured, or ended by an error, or by a panic. */
  datatype Exit = Measured | Failed | Unwound

  /** A statement of the teardown, however it fails, ends the repetition by an error, and a container that
      cannot be brought up by a panic; any other step ends it the way it fails itself. A removal's failure
      is discarded. */
  function ByFailure(d: Deed): Exit {
    match d
    case Drop(_, _, _, _) => Failed
    case Build(_, _) => Unwound
    case Start(_, _) => Unwound
    case Clash(_) => Unwound
    case Remove(_, _) => Measured
    case Other(outcome) => if outcome.Panicked? then Unwound else Failed
    case Create(_, outcome) => if outcome.Panicked? then Unwound else Failed
  }

  /** Steps end a repetition as the first of them that failed does; what fails behind it changes nothing. */
  function Ending(deeds: seq<Deed>): Exit {
    if deeds == [] then Measured
    else if deeds[0].Failed() && !deeds[0].Remove? then ByFailure(deeds[0])
    else Ending(deeds[1..])
  }

  lemma {:induction false} EndingAppend(a: seq<Deed>, b: seq<Deed>)
    ensures Ending(a + b) == if Ending(a).Measured? then Ending(b) else Ending(a)
  {
    if a == [] {
      assert a + b == b;
    } else {
      assert (a + b)[1..] == a[1..] + b;
      EndingAppend(a[1..], b);
    }
  }

  lemma {:induction false} EndingIsClean(history: seq<Deed>, from: nat)
    requires from <= |history|
    ensures Ending(history[from..]).Measured? <==> Clean(history, from, |history|)
    decreases |history| - from
  {
    if from < |history| {
      EndingIsClean(history, from + 1);
      assert history[from..][1..] == history[from + 1..];
    }
  }

  lemma EndingSplit(history: seq<Deed>, before: seq<Deed>, from: nat)
    requires before <= history && from <= |before|
    ensures Ending(history[from..])
         == if Ending(before[from..]).Measured? then Ending(history[|before|..]) else Ending(before[from..])
  {
    assert history[from..] == before[from..] + history[|before|..];
    EndingAppend(before[from..], history[|before|..]);
  }

  lemma EndingOfOne(d: Deed)
    ensures Ending([d]) == if d.Failed() && !d.Remove? then ByFailure(d) else Measured
  {
    assert [d][1..] == [];
  }

  lemma JustOne(history: seq<Deed>, from: nat)
    requires |history| == from + 1
    ensures var d := history[from];
      Ending(history[from..]) == if d.Failed() && !d.Remove? then ByFailure(d) else Measured
  {
    assert history[from..] == [history[from]];
    EndingOfOne(history[from]);
  }

  lemma EndingOfRemovals(history: seq<Deed>, from: nat)
    requires from <= |history| && forall k | from <= k < |history| :: history[k].Remove?
    ensures Ending(history[from..]) == Measured
  {
    EndingIsClean(history, from);
  }

  /** Up to the last step nothing failed. */
  lemma LastEnds(history: seq<Deed>, before: seq<Deed>, from: nat)
    requires from <= |before| && |history| == |before| + 1 && before <= history && Clean(before, from, |before|)
    ensures Ending(history[from..]) == Ending([history[|before|]])
  {
    hide Ending;
    EndingIsClean(before, from);
    EndingSplit(history, before, from);
    assert history[|before|..] == [history[|before|]];
  }

  // ----- what must not be disturbed

  /** What was live when something that must not be disturbed happened, `at` so many steps. */
  datatype Event =
    | Truncated(at: nat, arm: nat, state: State)
    | Window(at: nat, arm: nat, state: State)
    | EndTeardown(at: nat, arm: nat, state: State)

  /** Whether an object still standing is owed to an arm whose teardown failed. */
  ghost predicate Owed(arms: seq<Arm>, live: set<Obj>, dirty: set<nat>) {
    forall o | o in live :: exists i: nat | i in dirty && i < |arms| :: o in arms[i].creates
  }

  ghost predicate Safe(arms: seq<Arm>, e: Event) {
    var s := e.state;
    match e
    case Truncated(_, arm, _) => Owed(arms, s.live, s.dirty) && arm !in s.dirty && s.Loose() == {}
    case Window(_, arm, _) =>
      && arm < |arms| && arm !in s.dirty
      && Owed(arms, s.live - ToSet(arms[arm].creates), s.dirty)
      && s.Loose() <= ToSet(arms[arm].containers)
    case EndTeardown(_, _, _) => s.Loose() == {}
  }

  /** The events tell the truth, in the order in which they happened. */
  ghost predicate Told(history: seq<Deed>, log: seq<Event>) {
    && (forall k | 0 <= k < |log| :: log[k].at <= |history| && log[k].state == StateOf(history[..log[k].at]))
    && forall j, k | 0 <= j < k < |log| :: log[j].at <= log[k].at
  }

  lemma OneMore(fate: Fate, history: seq<Deed>, log: seq<Event>, d: Deed)
    requires Lawful(fate, history) && Told(history, log) && IsLawful(fate, StateOf(history), d, |history|)
    ensures Lawful(fate, history + [d]) && Told(history + [d], log)
    ensures StateOf(history + [d]) == After(StateOf(history), d)
  {
    hide After, IsLawful;
    var all := history + [d];
    assert forall k | 0 <= k <= |history| :: all[..k] == history[..k];
    assert history[..|history|] == history;
  }

  /** The shared server and host. */
  class World {
    const arms: seq<Arm>
    const fate: Fate
    var step: nat
    var live: set<Obj>
    var running: set<Name>
    ghost var dirty: set<nat>
    ghost var strays: set<Name>
    ghost var history: seq<Deed>
    ghost var log: seq<Event>

    /** Nothing stands when a sweep starts. */
    constructor (arms: seq<Arm>, fate: Fate)
      requires forall a | a in arms :: a.Valid()
      ensures this.arms == arms && this.fate == fate && history == [] && log == []
      ensures live == {} && AtRest()
    {
      this.arms, this.fate := arms, fate;
      step, live, running, dirty, strays, history, log := 0, {}, {}, {}, {}, [], [];
    }

    ghost function Now(): State
      reads this
    {
      State(live, running, dirty, strays)
    }

    /** What stands and runs is what the steps taken left, each as the oracle had it end. */
    ghost predicate Kept()
      reads this
    {
      step == |history| && Lawful(fate, history) && Now() == StateOf(history) && Told(history, log)
    }

    /** Everything that has happened was safe. */
    ghost predicate Sound()
      reads this
    {
      && Kept()
      && (forall a | a in arms :: a.Valid())
      && (forall e | e in log :: Safe(arms, e))
      && (forall i | i in dirty :: i < |arms| && arms[i].declares && arms[i].drops != [])
      && strays <= running
    }

    ghost function Loose(): set<Name>
      reads this
    {
      running - strays
    }

    /** Between repetitions nothing runs or stands but what a failed removal or teardown left. */
    ghost predicate AtRest()
      reads this
    {
      Sound() && Loose() == {} && Owed(arms, live, dirty)
    }

    /** Since the given point, no step failed but the removal of a container. */
    ghost predicate CleanSince(from: nat)
      reads this
    {
      Clean(history, from, |history|)
    }

    /** The steps and the events there were are still there, and new events are of new steps. */
    ghost predicate Continues(was: seq<Deed>, said: seq<Event>)
      reads this
    {
      && was <= history && said <= log
      && forall k | |said| <= k < |log| :: |was| <= log[k].at
    }

    ghost method Note(e: Event)
      requires Sound() && e.at == |history| && e.state == Now() && Safe(arms, e)
      modifies this`log
      ensures Sound() && log == old(log) + [e]
    {
      assert history[..|history|] == history;
      log := log + [e];
    }

    method Next() returns (o: Outcome)
      requires Sound()
      modifies this`step, this`history
      ensures Sound() && history == old(history) + [Other(o)]
    {
      hide Lawful, Told, StateOf;
      o := fate(Plain, step);
      OneMore(fate, history, log, Other(o));
      history := history + [Other(o)];
      step := step + 1;
    }

    /** A container's command line, assembled before it is started. */
    method Build(n: Name) returns (o: Outcome)
      requires Sound()
      modifies this`step, this`history
      ensures Sound() && history == old(history) + [Deed.Build(n, o)]
    {
      hide Lawful, Told, StateOf;
      o := fate(Plain, step);
      OneMore(fate, history, log, Deed.Build(n, o));
      history := history + [Deed.Build(n, o)];
      step := step + 1;
    }

    method Create(o: Obj) returns (r: Outcome)
      requires Sound()
      modifies this`step, this`live, this`history
      ensures Sound() && history == old(history) + [Deed.Create(o, r)]
      ensures live == old(live) + (if r.TookEffect() then {o} else {})
    {
      hide Lawful, Told, StateOf;
      r := fate(Plain, step);
      OneMore(fate, history, log, Deed.Create(o, r));
      history := history + [Deed.Create(o, r)];
      step := step + 1;
      if r.TookEffect() {
        live := live + {o};
      }
    }

    /** The n-th statement of an arm's teardown. */
    method Drop(arm: nat, nth: nat, o: Obj) returns (r: Outcome)
      requires Sound() && Loose() == {} && arm < |arms| && arms[arm].declares && arms[arm].drops != []
      modifies this`step, this`live, this`dirty, this`history
      ensures Sound() && history == old(history) + [Deed.Drop(arm, nth, o, r)]
      ensures live == old(live) - (if r.TookEffect() then {o} else {})
      ensures dirty == (if nth == 0 then old(dirty) - {arm} else old(dirty)) + (if r.Done? then {} else {arm})
    {
      hide Lawful, Told, StateOf;
      r := fate(Dropping, step);
      OneMore(fate, history, log, Deed.Drop(arm, nth, o, r));
      history := history + [Deed.Drop(arm, nth, o, r)];
      step := step + 1;
      if r.TookEffect() {
        live := live - {o};
      }
      dirty := (if nth == 0 then dirty - {arm} else dirty) + (if r.Done? then {} else {arm});
    }

    /** `docker rm -f`, whose failure the harness discards. */
    method Remove(n: Name) returns (ghost d: Deed)
      requires Sound()
      modifies this`step, this`running, this`strays, this`history
      ensures Sound() && Loose() == old(Loose()) - {n} && (n in running ==> n in strays)
      ensures history == old(history) + [d] && d.Remove? && d.name == n
    {
      hide Lawful, Told, StateOf;
      var r := fate(Removing, step);
      d := Deed.Remove(n, r);
      OneMore(fate, history, log, d);
      history := history + [d];
      step := step + 1;
      if r.TookEffect() {
        running, strays := running - {n}, strays - {n};
      } else if n in running {
        strays := strays + {n};
      }
    }

    /** `docker run`, which a container of the same name makes fail. */
    method Run(n: Name) returns (ok: bool, ghost d: Deed)
      requires Sound() && (n in running ==> n in strays)
      modifies this`step, this`running, this`history
      ensures Sound() && Loose() <= old(Loose()) + {n}
      ensures ok ==> Loose() == old(Loose()) + {n}
      ensures history == old(history) + [d] && (d.Start? || d.Clash?) && (ok <==> !d.Failed())
    {
      hide Lawful, Told, StateOf;
      if n in running {
        d := Clash(n);
        OneMore(fate, history, log, d);
        history := history + [d];
        step := step + 1;
        return false, d;
      }
      var r := fate(Plain, step);
      d := Start(n, r);
      OneMore(fate, history, log, d);
      history := history + [d];
      step := step + 1;
      if r.TookEffect() {
        running := running + {n};
      }
      ok := r.Done?;
    }
  }

  lemma OwedSubset(arms: seq<Arm>, live: set<Obj>, less: set<Obj>, dirty: set<nat>, more: set<nat>)
    requires Owed(arms, live, dirty) && less <= live && dirty <= more
    ensures Owed(arms, less, more)
  {
    forall o | o in less ensures exists i: nat | i in more && i < |arms| :: o in arms[i].creates {
      var i: nat :| i in dirty && i < |arms| && o in arms[i].creates;
      assert i in more;
    }
  }

  // ----- an arm's objects

  /** Own objects aside, nothing stands but what a failed teardown left. */
  ghost predicate OwnedOrOwed(w: World, arm: nat)
    reads w
  {
    arm < |w.arms| && Owed(w.arms, w.live - ToSet(w.arms[arm].creates), w.dirty)
  }

  /** After every object was dropped, this arm owes nothing. */
  lemma TornDown(arms: seq<Arm>, arm: nat, live: set<Obj>, left: set<Obj>, dirty: set<nat>)
    requires arm < |arms| && arms[arm].Valid()
    requires Owed(arms, live - ToSet(arms[arm].creates), dirty)
    requires left <= live && forall o | o in arms[arm].drops :: o !in left
    ensures Owed(arms, left, dirty - {arm})
  {
    forall o | o in left ensures exists i: nat | i in dirty - {arm} && i < |arms| :: o in arms[i].creates {
      assert o in live - ToSet(arms[arm].creates);
      var i: nat :| i in dirty && i < |arms| && o in arms[i].creates;
      assert i != arm;
    }
  }

  lemma LeftStanding(arms: seq<Arm>, arm: nat, live: set<Obj>, left: set<Obj>, dirty: set<nat>)
    requires arm < |arms| && Owed(arms, live - ToSet(arms[arm].creates), dirty) && left <= live
    ensures Owed(arms, left, dirty + {arm})
  {
    forall o | o in left ensures exists i: nat | i in dirty + {arm} && i < |arms| :: o in arms[i].creates {
      if o in arms[arm].creates {
        assert arm in dirty + {arm};
      } else {
        assert o in live - ToSet(arms[arm].creates);
        var i: nat :| i in dirty && i < |arms| && o in arms[i].creates;
        assert i in dirty + {arm};
      }
    }
  }

  class ArmObjects {
    const w: World
    const arm: nat
    const teardown: seq<Obj>
    var armed: bool

    ghost predicate Valid()
      reads this, w
    {
      arm < |w.arms| && w.arms[arm].Valid() && w.arms[arm].declares && teardown == w.arms[arm].drops
    }

    constructor (w: World, arm: nat)
      requires arm < |w.arms| && w.arms[arm].Valid() && w.arms[arm].declares
      ensures Valid() && armed && this.w == w && this.arm == arm
    {
      this.w, this.arm, teardown, armed := w, arm, w.arms[arm].drops, true;
    }

    /** Since the given point the first statements of the teardown were tried, in order, and nothing else. */
    ghost predicate Tried(from: nat)
      reads this, w
    {
      && from <= |w.history| <= from + |teardown|
      && forall k | from <= k < |w.history| ::
           var d := w.history[k]; d.Drop? && d.arm == arm && d.nth == k - from && d.obj == teardown[k - from]
    }

    /** `apply_arm_statements` on the teardown: stops at the first statement that fails. */
    method Apply() returns (ok: bool)
      requires Valid() && w.Sound() && w.Loose() == {} && OwnedOrOwed(w, arm)
      modifies w`step, w`live, w`dirty, w`history
      ensures w.Sound() && w.live <= old(w.live)
      ensures Owed(w.arms, w.live, w.dirty) && (ok <==> arm !in w.dirty)
      ensures old(w.history) <= w.history && Tried(|old(w.history)|)
      ensures forall k | |old(w.history)| <= k < |w.history| - 1 :: !w.history[k].Failed()
      ensures ok <==> w.CleanSince(|old(w.history)|)
      ensures Ending(w.history[|old(w.history)|..]) == (if ok then Measured else Failed)
      ensures ok ==> |w.history| == |old(w.history)| + |teardown| && forall o | o in teardown :: o !in w.live
    {
      hide World.Kept, Ending;
      ghost var start, before, dirty := |w.history|, w.live, w.dirty;
      for k := 0 to |teardown|
        invariant Valid() && w.Sound() && w.live <= before && old(w.history) <= w.history
        invariant |w.history| == start + k && Tried(start) && w.CleanSince(start)
        invariant w.dirty == if k == 0 then dirty else dirty - {arm}
        invariant forall j | 0 <= j < k :: teardown[j] !in w.live
      {
        var r := w.Drop(arm, k, teardown[k]);
        if !r.Done? {
          LeftStanding(w.arms, arm, before, w.live, dirty);
          assert w.dirty == dirty + {arm};
          assert w.history[start + k].Failed();
          LastEnds(w.history, w.history[..start + k], start);
          EndingOfOne(w.history[start + k]);
          return false;
        }
      }
      EndingIsClean(w.history, start);
      TornDown(w.arms, arm, before, w.live, dirty);
      assert w.dirty == dirty - {arm};
      return true;
    }

    /** The success path: disarmed first, so a failure is reported once. Nothing is tried behind the first
        statement that fails, and success means that nothing of the arm's stands. */
    method Finish() returns (ok: bool)
      requires Valid() && w.Sound() && OwnedOrOwed(w, arm) && w.Loose() == {}
      modifies this`armed, w`step, w`live, w`dirty, w`history, w`log
      ensures !armed && w.Sound() && Owed(w.arms, w.live, w.dirty) && (ok <==> arm !in w.dirty)
      ensures w.Continues(old(w.history), old(w.log)) && Closes(w.arms, arm, w.log[|old(w.log)|..])
      ensures Tried(|old(w.history)|)
      ensures forall k | |old(w.history)| <= k < |w.history| - 1 :: !w.history[k].Failed()
      ensures ok <==> w.CleanSince(|old(w.history)|)
      ensures Ending(w.history[|old(w.history)|..]) == (if ok then Measured else Failed)
      ensures ok ==> |w.history| == |old(w.history)| + |teardown| && forall o | o in teardown :: o !in w.live
    {
      hide World.Kept, Ending;
      armed := false;
      w.Note(EndTeardown(|w.history|, arm, w.Now()));
      ok := Apply();
    }

    /** The backstop: every statement is tried, whatever became of the ones before it. */
    method Drop()
      requires Valid() && w.Sound() && w.Loose() == {}
      requires armed ==> OwnedOrOwed(w, arm)
      requires !armed ==> Owed(w.arms, w.live, w.dirty)
      modifies w`step, w`live, w`dirty, w`history, w`log
      ensures w.Sound() && Owed(w.arms, w.live, w.dirty) && w.Continues(old(w.history), old(w.log))
      ensures Tried(|old(w.history)|) && |w.history| == |old(w.history)| + (if armed then |teardown| else 0)
      ensures if armed then Closes(w.arms, arm, w.log[|old(w.log)|..]) else w.log == old(w.log)
    {
      hide World.Kept;
      if !armed {
        return;
      }
      ghost var start, before, dirty := |w.history|, w.live, w.dirty;
      ghost var complete := true;
      w.Note(EndTeardown(|w.history|, arm, w.Now()));
      ghost var log := w.log;
      for k := 0 to |teardown|
        invariant Valid() && w.Sound() && w.live <= before && w.log == log && old(w.history) <= w.history
        invariant |w.history| == start + k && Tried(start)
        invariant complete ==> forall j | 0 <= j < k :: teardown[j] !in w.live
        invariant complete ==> w.dirty == if k == 0 then dirty else dirty - {arm}
        invariant !complete ==> k > 0 && w.dirty == dirty + {arm}
      {
        var r := w.Drop(arm, k, teardown[k]);
        complete := complete && r.Done?;
      }
      if complete {
        TornDown(w.arms, arm, before, w.live, dirty);
        assert w.dirty == dirty - {arm};
      } else {
        LeftStanding(w.arms, arm, before, w.live, dirty);
      }
    }
  }

  // ----- an arm's containers

  class ArmContainers {
    const w: World
    var names: seq<Name>

    /** The names are registered before the first container starts. */
    constructor (w: World, names: seq<Name>)
      ensures this.w == w && this.names == names
    {
      this.w, this.names := w, names;
    }

    /** Starts them in order, each over whatever holds its name; one that cannot be started ends the arm. */
    method StartAll() returns (ok: bool)
      requires w.Sound() && w.Loose() == {}
      modifies w`step, w`running, w`strays, w`history
      ensures w.Sound() && w.Loose() <= ToSet(names) && old(w.history) <= w.history
      ensures ok ==> w.Loose() == ToSet(names)
      ensures ok <==> w.CleanSince(|old(w.history)|)
      ensures Ending(w.history[|old(w.history)|..]) == (if ok then Measured else Unwound)
    {
      hide World.Kept, Ending;
      ghost var start := |w.history|;
      for k := 0 to |names|
        invariant w.Sound() && w.Loose() == ToSet(names[..k]) && old(w.history) <= w.history
        invariant w.CleanSince(start)
      {
        assert names[..k + 1] == names[..k] + [names[k]];
        ghost var at, before := |w.history|, w.history;
        var built := w.Build(names[k]);
        if !built.Done? {
          assert w.history[at].Failed();
          LastEnds(w.history, before, start);
          EndingOfOne(w.history[at]);
          return false;
        }
        ghost var removal := w.Remove(names[k]);
        var started, d := w.Run(names[k]);
        if !started {
          assert w.history[at + 2] == d;
          LastEnds(w.history, w.history[..at + 2], start);
          EndingOfOne(d);
          return false;
        }
      }
      assert names[..|names|] == names;
      EndingIsClean(w.history, start);
      return true;
    }

    /** Tries to remove each, in order, and takes the names, so that a second call does nothing. */
    method Stop()
      requires w.Sound()
      modifies this`names, w`step, w`running, w`strays, w`history
      ensures names == [] && w.Sound() && w.Loose() == old(w.Loose()) - ToSet(old(names))
      ensures forall n | n in old(names) :: n in w.running ==> n in w.strays
      ensures old(w.history) <= w.history && |w.history| == |old(w.history)| + |old(names)|
      ensures forall k | |old(w.history)| <= k < |w.history| ::
                w.history[k].Remove? && w.history[k].name == old(names)[k - |old(w.history)|]
    {
      hide World.Kept;
      var taken := names;
      names := [];
      ghost var start := |w.history|;
      for k := 0 to |taken|
        invariant w.Sound() && w.Loose() == old(w.Loose()) - ToSet(taken[..k]) && names == []
        invariant old(w.history) <= w.history && |w.history| == start + k
        invariant forall j | start <= j < start + k :: w.history[j].Remove? && w.history[j].name == taken[j - start]
      {
        assert taken[..k + 1] == taken[..k] + [taken[k]];
        ghost var removal := w.Remove(taken[k]);
      }
      assert taken[..|taken|] == taken;
    }
  }

  // ----- one repetition of one arm

  /** On the way out an arm that declares its SQL files is torn down once. */
  ghost predicate Closes(arms: seq<Arm>, arm: nat, events: seq<Event>) {
    && arm < |arms|
    && |events| == (if arms[arm].declares then 1 else 0)
    && forall k | 0 <= k < |events| :: events[k].EndTeardown? && events[k].arm == arm
  }

  /** The events of one repetition, however far it came: a truncation, then a window, and the
      end-of-repetition teardown whenever the arm's teardown file could be read. */
  ghost predicate IsAttempt(arms: seq<Arm>, arm: nat, events: seq<Event>) {
    && arm < |arms|
    && (forall k | 0 <= k < |events| :: events[k].arm == arm)
    && var started := if events != [] && events[|events| - 1].EndTeardown? then events[..|events| - 1] else events;
       && |started| <= 2
       && (|started| > 0 ==> started[0].Truncated?)
       && (|started| > 1 ==> started[1].Window?)
       && (arms[arm].declares && events != [] ==> events[|events| - 1].EndTeardown?)
       && (!arms[arm].declares ==> started == events)
  }

  /** A repetition that is measured: a truncation, and a window with all of the arm's own objects and
      containers up. */
  ghost predicate IsRepetition(arms: seq<Arm>, arm: nat, events: seq<Event>) {
    && IsAttempt(arms, arm, events)
    && |events| == (if arms[arm].declares then 3 else 2)
    && events[1].state.live == events[0].state.live + ToSet(arms[arm].creates)
    && events[1].state.Loose() == ToSet(arms[arm].containers)
  }

  /** Out of the function by an error or a panic: containers first, objects after. */
  method Unwind(w: World, containers: ArmContainers?, objects: ArmObjects?, arm: nat)
    requires w.Sound() && arm < |w.arms|
    requires containers == null ==> w.Loose() == {}
    requires containers != null ==> containers.w == w && w.Loose() <= ToSet(containers.names)
    requires objects != null <==> w.arms[arm].declares
    requires objects == null ==> Owed(w.arms, w.live, w.dirty)
    requires objects != null ==>
        objects.w == w && objects.Valid() && objects.armed && objects.arm == arm && OwnedOrOwed(w, arm)
    modifies containers, w
    ensures w.AtRest() && w.Continues(old(w.history), old(w.log)) && Closes(w.arms, arm, w.log[|old(w.log)|..])
  {
    hide World.Kept;
    if containers != null {
      containers.Stop();
    }
    if objects != null {
      objects.Drop();
    }
  }

  /** How the repetition goes on behind a step. */
  function ExitOf(o: Outcome): Exit {
    match o
    case Done => Measured
    case Refused(_) => Failed
    case Panicked(_) => Unwound
  }

  lemma NothingOwned(w: World, arm: nat)
    requires arm < |w.arms| && Owed(w.arms, w.live, w.dirty)
    ensures OwnedOrOwed(w, arm)
  {
    OwedSubset(w.arms, w.live, w.live - ToSet(w.arms[arm].creates), w.dirty, w.dirty);
  }

  /** The arm's objects as its committed file makes them; stops at the first statement that fails. */
  method CreateObjects(w: World, arm: nat) returns (o: Outcome)
    requires arm < |w.arms| && w.Sound() && OwnedOrOwed(w, arm)
    modifies w`step, w`live, w`history
    ensures w.Sound() && OwnedOrOwed(w, arm) && old(w.history) <= w.history
    ensures o.Done? ==> w.live == old(w.live) + ToSet(w.arms[arm].creates)
    ensures Ending(w.history[|old(w.history)|..]) == ExitOf(o) && (o.Done? <==> w.CleanSince(|old(w.history)|))
  {
    hide World.Kept, Ending;
    var creates := w.arms[arm].creates;
    ghost var before, start := w.live, |w.history|;
    o := Done;
    for k := 0 to |creates|
      invariant w.Sound() && w.live == before + ToSet(creates[..k]) && o.Done?
      invariant old(w.history) <= w.history && w.CleanSince(start)
    {
      ghost var at, was := |w.history|, w.history;
      o := w.Create(creates[k]);
      assert creates[..k + 1] == creates[..k] + [creates[k]];
      if !o.Done? {
        assert w.history[at].Failed();
        LastEnds(w.history, was, start);
        EndingOfOne(w.history[at]);
        OwnedStays(w, arm, before);
        return;
      }
    }
    assert creates[..|creates|] == creates;
    EndingIsClean(w.history, start);
    OwnedStays(w, arm, before);
  }

  lemma OwnedStays(w: World, arm: nat, before: set<Obj>)
    requires arm < |w.arms| && w.live <= before + ToSet(w.arms[arm].creates)
    requires Owed(w.arms, before - ToSet(w.arms[arm].creates), w.dirty)
    ensures OwnedOrOwed(w, arm)
  {
    var own := ToSet(w.arms[arm].creates);
    OwedSubset(w.arms, before - own, w.live - own, w.dirty, w.dirty);
  }

  /** `run_arm`: on every way out the world is at rest, and the log gained an attempt of this arm. The
      arm is measured exactly when no step but a container's removal failed, and then the log gained a
      repetition. */
  method RunArm(w: World, arm: nat) returns (exit: Exit)
    requires w.AtRest() && arm < |w.arms|
    modifies w
    ensures w.AtRest() && w.Continues(old(w.history), old(w.log)) && old(w.history) < w.history
    ensures w.log != old(w.log) <==> (w.arms[arm].declares ==> !w.history[|old(w.history)|].Failed())
    ensures IsAttempt(w.arms, arm, w.log[|old(w.log)|..])
    ensures exit.Measured? ==> IsRepetition(w.arms, arm, w.log[|old(w.log)|..])
    ensures exit.Measured? <==> w.CleanSince(|old(w.history)|)
    ensures exit == Ending(w.history[|old(w.history)|..])
  {
    hide World.Kept, IsRepetition, Ending;
    var a := w.arms[arm];
    assert a in w.arms;
    ghost var start := |w.history|;
    var objects: ArmObjects? := null;
    if a.declares {
      var o := w.Next();
      if !o.Done? {
        assert w.history[start].Failed();
        JustOne(w.history, start);
        return ExitOf(o);
      }
      JustOne(w.history, start);
      objects := new ArmObjects(w, arm);
      NothingOwned(w, arm);
      ghost var before := w.history;
      var clean := objects.Apply();
      NothingOwned(w, arm);
      EndingSplit(w.history, before, start);
      if !clean {
        StillUnclean(w, |before|, start);
        ghost var failed := w.history;
        Unwind(w, null, objects, arm);
        StillFailed(w, failed, start);
        EndingSplit(w.history, failed, start);
        return Failed;
      }
    }
    ghost var ready := w.history;
    EndingIsClean(ready, start);
    exit := AfterTeardown(w, arm, objects);
    CleanParts(w, ready, start);
    EndingSplit(w.history, ready, start);
  }

  /** A step that failed behind the later point failed behind the earlier one. */
  lemma StillUnclean(w: World, later: nat, from: nat)
    requires from <= later && !w.CleanSince(later)
    ensures !w.CleanSince(from)
  {
  }

  lemma StillFailed(w: World, before: seq<Deed>, from: nat)
    requires before <= w.history && !Clean(before, from, |before|)
    ensures !w.CleanSince(from)
  {
    var k :| from <= k < |before| && !before[k].Remove? && before[k].Failed();
    assert w.history[k] == before[k];
  }

  lemma CleanParts(w: World, before: seq<Deed>, from: nat)
    requires before <= w.history && from <= |before|
    ensures w.CleanSince(from) <==> Clean(before, from, |before|) && w.CleanSince(|before|)
  {
    assert forall k | 0 <= k < |before| :: w.history[k] == before[k];
  }

  /** The truncation, and the arm's objects made anew behind it. */
  method Recreate(w: World, arm: nat) returns (o: Outcome)
    requires arm < |w.arms| && w.arms[arm].Valid() && w.Sound() && OwnedOrOwed(w, arm)
    modifies w`step, w`live, w`history
    ensures w.Sound() && OwnedOrOwed(w, arm) && old(w.history) <= w.history
    ensures o.Done? ==> w.live == old(w.live) + ToSet(w.arms[arm].creates)
    ensures !w.arms[arm].declares ==> w.live == old(w.live)
    ensures o.Done? <==> w.CleanSince(|old(w.history)|)
    ensures Ending(w.history[|old(w.history)|..]) == ExitOf(o) && old(w.history) < w.history
  {
    hide World.Kept, Ending;
    ghost var start := |w.history|;
    o := w.Next();
    JustOne(w.history, start);
    if o.Done? && w.arms[arm].declares {
      ghost var truncated := w.history;
      o := w.Next();
      ghost var read := w.history;
      JustOne(w.history, start + 1);
      EndingSplit(read, truncated, start);
      if o.Done? {
        o := CreateObjects(w, arm);
        CleanParts(w, read, start);
        EndingSplit(w.history, read, start);
      } else {
        assert w.history[start + 1].Failed();
      }
    } else {
      assert w.history[start] == Other(o);
    }
  }

  /** From the truncation on, with the guard already armed. */
  method AfterTeardown(w: World, arm: nat, objects: ArmObjects?) returns (exit: Exit)
    requires w.AtRest() && arm < |w.arms| && arm !in w.dirty && (objects != null <==> w.arms[arm].declares)
    requires objects != null ==> objects.w == w && objects.Valid() && objects.armed && objects.arm == arm
    modifies objects, w
    ensures w.AtRest() && w.Continues(old(w.history), old(w.log))
    ensures old(w.history) < w.history && w.log != old(w.log)
    ensures IsAttempt(w.arms, arm, w.log[|old(w.log)|..])
    ensures exit.Measured? ==> IsRepetition(w.arms, arm, w.log[|old(w.log)|..])
    ensures exit.Measured? <==> w.CleanSince(|old(w.history)|)
    ensures exit == Ending(w.history[|old(w.history)|..])
  {
    hide World.Kept, IsAttempt, IsRepetition, Windowed, Closes, Ending, Clean;
    NothingOwned(w, arm);
    assert w.arms[arm] in w.arms;
    ghost var before, was := w.log, w.history;
    ghost var truncated := Truncated(|w.history|, arm, w.Now());
    w.Note(truncated);
    var o := Recreate(w, arm);
    ghost var created := w.live;
    ghost var done := w.history;
    if !o.Done? {
      Unwind(w, null, objects, arm);
      StillFailed(w, done, |was|);
      EndingSplit(w.history, done, |was|);
      CutShort(w, arm, before, truncated);
      return ExitOf(o);
    }
    exit := Contain(w, arm, objects);
    CleanParts(w, done, |was|);
    EndingSplit(w.history, done, |was|);
    if Windowed(w, arm, before + [truncated], created) {
      Completed(w, arm, before, truncated, created);
    } else {
      CutShort(w, arm, before, truncated);
    }
  }

  lemma CutShort(w: World, arm: nat, log: seq<Event>, e: Event)
    requires arm < |w.arms| && e.Truncated? && e.arm == arm && log + [e] <= w.log
    requires Closes(w.arms, arm, w.log[|log + [e]|..])
    ensures log <= w.log && IsAttempt(w.arms, arm, w.log[|log|..])
  {
    assert log <= log + [e] <= w.log;
    assert w.log[|log|..] == [e] + w.log[|log + [e]|..];
  }

  lemma Completed(w: World, arm: nat, log: seq<Event>, e: Event, live: set<Obj>)
    requires arm < |w.arms| && e.Truncated? && e.arm == arm && Windowed(w, arm, log + [e], live)
    requires live == e.state.live + ToSet(w.arms[arm].creates)
    ensures log <= w.log && IsRepetition(w.arms, arm, w.log[|log|..])
  {
    assert log <= log + [e] <= w.log;
    assert w.log[|log|..] == [e] + w.log[|log + [e]|..];
  }

  /** The container specifications, then the containers, then the window. */
  method Contain(w: World, arm: nat, objects: ArmObjects?) returns (exit: Exit)
    requires w.Sound() && w.Loose() == {} && arm !in w.dirty && OwnedOrOwed(w, arm)
    requires objects != null <==> w.arms[arm].declares
    requires objects == null ==> Owed(w.arms, w.live, w.dirty)
    requires objects != null ==> objects.w == w && objects.Valid() && objects.armed && objects.arm == arm
    modifies objects, w
    ensures w.AtRest() && w.Continues(old(w.history), old(w.log))
    ensures Windowed(w, arm, old(w.log), old(w.live)) || Closes(w.arms, arm, w.log[|old(w.log)|..])
    ensures exit.Measured? ==> Windowed(w, arm, old(w.log), old(w.live))
    ensures exit.Measured? <==> w.CleanSince(|old(w.history)|)
    ensures exit == Ending(w.history[|old(w.history)|..])
  {
    hide World.Kept, Windowed, Closes, Ending;
    ghost var start := |w.history|;
    var o := w.Next();
    JustOne(w.history, start);
    if !o.Done? {
      ghost var failed := w.history;
      assert w.history[start].Failed();
      Unwind(w, null, objects, arm);
      StillFailed(w, failed, start);
      EndingSplit(w.history, failed, start);
      return ExitOf(o);
    }
    var containers := new ArmContainers(w, w.arms[arm].containers);
    ghost var built := w.history;
    var started := containers.StartAll();
    CleanParts(w, built, start);
    ghost var up := w.history;
    EndingSplit(up, built, start);
    if !started {
      Unwind(w, containers, objects, arm);
      StillFailed(w, up, start);
      EndingSplit(w.history, up, start);
      return Unwound;
    }
    exit := HoldWindow(w, arm, containers, objects);
    CleanParts(w, up, start);
    EndingSplit(w.history, up, start);
  }

  /** The log gained a window with all of the arm's containers up, and the closing teardown. */
  ghost predicate Windowed(w: World, arm: nat, log: seq<Event>, live: set<Obj>)
    requires arm < |w.arms|
    reads w
  {
    && log <= w.log
    && var gained := w.log[|log|..];
       && |gained| == (if w.arms[arm].declares then 2 else 1)
       && gained[0].Window? && gained[0].arm == arm && gained[0].state.live == live
       && gained[0].state.Loose() == ToSet(w.arms[arm].containers)
       && (w.arms[arm].declares ==> gained[1].EndTeardown? && gained[1].arm == arm)
  }

  /** The window and everything after it, with the containers up. */
  method HoldWindow(w: World, arm: nat, containers: ArmContainers, objects: ArmObjects?) returns (exit: Exit)
    requires w.Sound() && arm !in w.dirty && OwnedOrOwed(w, arm)
    requires containers.w == w && w.Loose() == ToSet(containers.names) == ToSet(w.arms[arm].containers)
    requires objects != null <==> w.arms[arm].declares
    requires objects == null ==> Owed(w.arms, w.live, w.dirty)
    requires objects != null ==> objects.w == w && objects.Valid() && objects.armed && objects.arm == arm
    modifies containers, objects, w
    ensures w.AtRest() && w.Continues(old(w.history), old(w.log))
    ensures Windowed(w, arm, old(w.log), old(w.live))
    ensures exit.Measured? <==> w.CleanSince(|old(w.history)|)
    ensures exit == Ending(w.history[|old(w.history)|..])
  {
    hide World.Kept, Windowed, Closes, Ending;
    ghost var before, live, start := w.log, w.live, |w.history|;
    ghost var held := Window(start, arm, w.Now());
    w.Note(held);
    var o := w.Next();
    JustOne(w.history, start);
    if !o.Done? {
      ghost var failed := w.history;
      assert w.history[start].Failed();
      if o.Refused? {
        containers.Stop();
      }
      Unwind(w, containers, objects, arm);
      StillFailed(w, failed, start);
      EndingSplit(w.history, failed, start);
      IsWindowed(w, arm, before, live, held);
      return ExitOf(o);
    }
    assert w.CleanSince(start);
    containers.Stop();
    ghost var stopped := w.history;
    assert w.CleanSince(start);
    EndingIsClean(stopped, start);
    exit := Conclude(w, arm, containers, objects);
    CleanParts(w, stopped, start);
    EndingSplit(w.history, stopped, start);
    IsWindowed(w, arm, before, live, held);
  }

  /** With the containers gone: what is left of the repetition, and the reporting teardown. */
  method Conclude(w: World, arm: nat, containers: ArmContainers, objects: ArmObjects?) returns (exit: Exit)
    requires w.Sound() && w.Loose() == {} && OwnedOrOwed(w, arm) && containers.w == w && containers.names == []
    requires objects != null <==> w.arms[arm].declares
    requires objects == null ==> Owed(w.arms, w.live, w.dirty)
    requires objects != null ==> objects.w == w && objects.Valid() && objects.armed && objects.arm == arm
    modifies containers, objects, w
    ensures w.AtRest() && w.Continues(old(w.history), old(w.log)) && Closes(w.arms, arm, w.log[|old(w.log)|..])
    ensures exit.Measured? <==> w.CleanSince(|old(w.history)|)
    ensures exit == Ending(w.history[|old(w.history)|..])
  {
    hide World.Kept, Closes, Ending;
    ghost var start := |w.history|;
    var o := w.Next();
    ghost var ready := w.history;
    JustOne(w.history, start);
    if !o.Done? {
      assert w.history[start].Failed();
      Unwind(w, containers, objects, arm);
      StillFailed(w, ready, start);
      EndingSplit(w.history, ready, start);
      return ExitOf(o);
    }
    exit := Measured;
    if objects == null {
      NothingDeclared(w, arm, w.log);
    } else {
      var clean := objects.Finish();
      exit := if clean then Measured else Failed;
      CleanParts(w, ready, start);
      EndingSplit(w.history, ready, start);
    }
    ghost var closed := w.history;
    EndingIsClean(closed, start);
    containers.Stop();
    EndingOfRemovals(w.history, |closed|);
    EndingSplit(w.history, closed, start);
  }

  lemma NothingDeclared(w: World, arm: nat, log: seq<Event>)
    requires arm < |w.arms| && !w.arms[arm].declares && w.log == log
    ensures Closes(w.arms, arm, w.log[|log|..])
  {
  }

  lemma IsWindowed(w: World, arm: nat, log: seq<Event>, live: set<Obj>, e: Event)
    requires arm < |w.arms| && e.Window? && e.arm == arm && e.state.live == live
    requires e.state.Loose() == ToSet(w.arms[arm].containers) && log + [e] <= w.log
    requires Closes(w.arms, arm, w.log[|log + [e]|..])
    ensures Windowed(w, arm, log, live)
  {
    assert log <= log + [e] <= w.log;
    assert w.log[|log|..] == [e] + w.log[|log + [e]|..];
  }

  // ----- the sweep

  /** What becomes of one visit to an arm. A refusal below the point where the arm is identified is
      recorded; one above it, or a record that cannot be appended, is only reported. */
  datatype Visit = Unrecorded | Recorded(refused: bool) | Aborted {
    predicate IsRefusal() { Unrecorded? || (Recorded? && refused) }
  }

  /** A visit has events exactly when the arm is run and its SQL files, if it has any, can be read: from then
      on every way out tears it down. */
  ghost predicate Opens(arms: seq<Arm>, arm: nat, deeds: seq<Deed>, events: seq<Event>)
    requires arm < |arms|
  {
    events != [] <==>
      && |deeds| > 2 && deeds[0] == Other(Done) && deeds[1] == Other(Done)
      && (arms[arm].declares ==> !deeds[2].Failed())
  }

  /** What the record that is appended last says of the visit. */
  function RecordOf(append: Outcome, exit: Exit): Visit {
    match append
    case Done => Recorded(!exit.Measured?)
    case Refused(_) => Unrecorded
    case Panicked(_) => Aborted
  }

  /** What becomes of a visit that took these steps: the first identifies the arm, the second may refuse it
      before it is run, and the last appends the record, unless a panic came before it. */
  ghost predicate Becomes(deeds: seq<Deed>, v: Visit) {
    var n := |deeds|;
    && n > 0 && deeds[0].Other?
    && if !deeds[0].outcome.Done? then n == 1 && v == (if deeds[0].outcome.Panicked? then Aborted else Unrecorded)
       else if n == 2 then deeds[1].Other? && deeds[1].outcome.Panicked? && v == Aborted
       else
         && n > 2 && deeds[1].Other? && !deeds[1].outcome.Panicked?
         && ((deeds[1].outcome.Done? && Ending(deeds[2..]) == Unwound && v == Aborted)
             || (deeds[n - 1].Other? && (deeds[1].outcome.Done? || n == 3) && Ending(deeds[1..n - 1]) != Unwound
                 && v == RecordOf(deeds[n - 1].outcome, Ending(deeds[1..n - 1]))))
  }

  lemma HasSteps(history: seq<Deed>, from: nat)
    requires from <= |history| && !Ending(history[from..]).Measured?
    ensures from < |history|
  {
    NoSteps(history);
  }

  lemma NoSteps(history: seq<Deed>)
    ensures Ending(history[|history|..]) == Measured
  {
  }

  lemma FirstStepDecides(history: seq<Deed>, start: nat)
    requires |history| == start + 1 && history[start].Other? && !history[start].outcome.Done?
    ensures Becomes(history[start..], if history[start].outcome.Panicked? then Aborted else Unrecorded)
  {
  }

  lemma SecondStepPanics(history: seq<Deed>, start: nat)
    requires |history| == start + 2 && history[start] == Other(Done)
    requires history[start + 1].Other? && history[start + 1].outcome.Panicked?
    ensures Becomes(history[start..], Aborted)
  {
  }

  lemma RunUnwinds(history: seq<Deed>, start: nat)
    requires |history| >= start + 2 && history[start] == history[start + 1] == Other(Done)
    requires Ending(history[start + 2..]) == Unwound
    ensures Becomes(history[start..], Aborted)
  {
    hide Ending;
    HasSteps(history, start + 2);
    assert history[start..][2..] == history[start + 2..];
  }

  lemma RecordDecides(history: seq<Deed>, ran: seq<Deed>, start: nat, exit: Exit)
    requires start + 2 <= |ran| && ran < history && |history| == |ran| + 1 && ran[start] == Other(Done)
    requires ran[start + 1].Other? && !ran[start + 1].outcome.Panicked?
    requires ran[start + 1].outcome.Done? || |ran| == start + 2
    requires history[|ran|].Other? && Ending(ran[start + 1..]) == exit != Unwound
    ensures Becomes(history[start..], RecordOf(history[|ran|].outcome, exit))
  {
    hide Ending, RecordOf;
    assert history[start..][1..|history| - start - 1] == ran[start + 1..];
  }

  /** The second step, and what was run behind it. */
  lemma RunEnds(ran: seq<Deed>, start: nat)
    requires start + 2 <= |ran| && ran[start + 1].Other?
    ensures Ending(ran[start + 1..])
         == if ran[start + 1].Failed() then ByFailure(ran[start + 1]) else Ending(ran[start + 2..])
  {
    hide Ending;
    var before := ran[..start + 2];
    JustOne(before, start + 1);
    EndingSplit(ran, before, start + 1);
  }

  lemma OpensBy(arms: seq<Arm>, arm: nat, history: seq<Deed>, start: nat, said: seq<Event>, log: seq<Event>)
    requires arm < |arms| && start <= |history| && said <= log
    requires log != said <==>
             && |history| > start + 2 && history[start] == history[start + 1] == Other(Done)
             && (arms[arm].declares ==> !history[start + 2].Failed())
    ensures Opens(arms, arm, history[start..], log[|said|..])
  {
    assert log == said + log[|said|..];
  }

  lemma FailedIsUnclean(history: seq<Deed>, from: nat, k: nat)
    requires from <= k < |history| && !history[k].Remove? && history[k].Failed()
    ensures !Clean(history, from, |history|)
  {
  }

  lemma TwoAreClean(history: seq<Deed>, from: nat)
    requires |history| == from + 2 && history[from] == history[from + 1] == Other(Done)
    ensures Clean(history, from, |history|)
  {
  }

  lemma LastIsClean(history: seq<Deed>, from: nat)
    requires |history| == from + 1 && history[from].Other?
    ensures Clean(history, from, |history|) <==> history[from].outcome.Done?
  {
  }

  lemma NothingAttempted(arms: seq<Arm>, arm: nat, log: seq<Event>)
    requires arm < |arms|
    ensures IsAttempt(arms, arm, log[|log|..])
  {
  }

  /** `measure`: a measurement is recorded exactly when no step but a container's removal failed; whatever
      does fail decides alone whether the refusal is recorded, only reported, or ends the sweep. */
  method MeasureArm(w: World, arm: nat) returns (v: Visit)
    requires w.AtRest() && arm < |w.arms|
    modifies w
    ensures w.AtRest() && w.Continues(old(w.history), old(w.log))
    ensures IsAttempt(w.arms, arm, w.log[|old(w.log)|..])
    ensures v == Recorded(false) ==> IsRepetition(w.arms, arm, w.log[|old(w.log)|..])
    ensures v == Recorded(false) <==> w.CleanSince(|old(w.history)|)
    ensures Becomes(w.history[|old(w.history)|..], v)
    ensures Opens(w.arms, arm, w.history[|old(w.history)|..], w.log[|old(w.log)|..])
  {
    hide World.Kept, IsRepetition, IsAttempt, Ending, Becomes, Opens, Clean;
    ghost var start, said := |w.history|, w.log;
    NothingAttempted(w.arms, arm, said);
    var identified := w.Next();
    if !identified.Done? {
      FailedIsUnclean(w.history, start, start);
      FirstStepDecides(w.history, start);
      OpensBy(w.arms, arm, w.history, start, said, w.log);
      return if identified.Panicked? then Aborted else Unrecorded;
    }
    var pinned := w.Next();
    var exit := Failed;
    if pinned.Panicked? {
      FailedIsUnclean(w.history, start, start + 1);
      SecondStepPanics(w.history, start);
      OpensBy(w.arms, arm, w.history, start, said, w.log);
      return Aborted;
    } else if pinned.Done? {
      ghost var ready := w.history;
      exit := RunArm(w, arm);
      CleanParts(w, ready, start);
      TwoAreClean(ready, start);
      if exit.Unwound? {
        RunUnwinds(w.history, start);
        OpensBy(w.arms, arm, w.history, start, said, w.log);
        return Aborted;
      }
    } else {
      FailedIsUnclean(w.history, start, start + 1);
    }
    ghost var ran := w.history;
    assert exit.Measured? <==> w.CleanSince(start);
    RunEnds(ran, start);
    var appended := w.Next();
    RecordDecides(w.history, ran, start, exit);
    OpensBy(w.arms, arm, w.history, start, said, w.log);
    CleanParts(w, ran, start);
    LastIsClean(w.history, |ran|);
    v := if appended.Done? then Recorded(!exit.Measured?) else if appended.Panicked? then Aborted else Unrecorded;
  }

  /** The first `k` arms of a repetition. */
  function Round(rep: nat, k: nat): seq<(nat, nat)> { seq(k, i => (rep, i)) }

  /** Every repetition visits every arm once, in the descriptors' order. */
  function Schedule(reps: nat, n: nat): seq<(nat, nat)> {
    if reps == 0 then [] else Schedule(reps - 1, n) + Round(reps, n)
  }

  /** What one visit took: the steps from `start` to `end`, and the events among them. */
  datatype Run = Run(start: nat, end: nat, events: seq<Event>)

  function Joined(runs: seq<Run>): seq<Event> {
    if runs == [] then [] else Joined(runs[..|runs| - 1]) + runs[|runs| - 1].events
  }

  function EndOf(runs: seq<Run>): nat { if runs == [] then 0 else runs[|runs| - 1].end }

  function Emitted(results: seq<Visit>): nat {
    if results == [] then 0
    else Emitted(results[..|results| - 1]) + (if results[|results| - 1].Recorded? then 1 else 0)
  }

  function Refusals(results: seq<Visit>): nat {
    if results == [] then 0
    else Refusals(results[..|results| - 1]) + (if results[|results| - 1].IsRefusal() then 1 else 0)
  }

  /** One visit: an attempt, and a measured repetition exactly when no step but a removal failed; what became
      of it is what its steps say. */
  ghost predicate Visited(arms: seq<Arm>, history: seq<Deed>, arm: nat, v: Visit, run: Run) {
    && run.start <= run.end <= |history|
    && (forall e | e in run.events :: run.start <= e.at <= run.end)
    && IsAttempt(arms, arm, run.events)
    && (v == Recorded(false) <==> Clean(history, run.start, run.end))
    && Becomes(history[run.start..run.end], v) && Opens(arms, arm, history[run.start..run.end], run.events)
    && (v == Recorded(false) ==> IsRepetition(arms, arm, run.events))
  }

  /** The visits, one behind another, took all the steps and told all the events. */
  ghost predicate Ran(w: World, visits: seq<(nat, nat)>, results: seq<Visit>, runs: seq<Run>)
    reads w
  {
    && |visits| == |results| == |runs|
    && w.log == Joined(runs) && |w.history| == EndOf(runs)
    && (forall i | 0 <= i < |runs| :: runs[i].start == EndOf(runs[..i]))
    && forall i | 0 <= i < |runs| :: Visited(w.arms, w.history, visits[i].1, results[i], runs[i])
  }

  /** A visit after which the sweep goes on. */
  predicate GoesOn(v: Visit, failFast: bool) { !v.Aborted? && (failFast ==> !v.IsRefusal()) }

  ghost predicate AllGoOn(results: seq<Visit>, failFast: bool) {
    forall i | 0 <= i < |results| :: GoesOn(results[i], failFast)
  }

  lemma StillVisited(arms: seq<Arm>, history: seq<Deed>, after: seq<Deed>, arm: nat, v: Visit, run: Run)
    requires Visited(arms, history, arm, v, run) && history <= after
    ensures Visited(arms, after, arm, v, run)
  {
    hide IsAttempt, IsRepetition, Becomes, Opens;
    assert forall k | 0 <= k < |history| :: after[k] == history[k];
    assert after[run.start..run.end] == history[run.start..run.end];
  }

  lemma RunsChain(runs: seq<Run>, run: Run)
    requires (forall i | 0 <= i < |runs| :: runs[i].start == EndOf(runs[..i])) && run.start == EndOf(runs)
    ensures forall i | 0 <= i < |runs + [run]| :: (runs + [run])[i].start == EndOf((runs + [run])[..i])
    ensures Joined(runs + [run]) == Joined(runs) + run.events && EndOf(runs + [run]) == run.end
  {
    hide EndOf;
    var all := runs + [run];
    assert all[..|runs|] == runs;
    forall i | 0 <= i < |runs| ensures all[..i] == runs[..i] {
    }
    LastEnd(all);
  }

  lemma LastEnd(runs: seq<Run>)
    requires runs != []
    ensures EndOf(runs) == runs[|runs| - 1].end
  {
  }

  /** One more visit. */
  lemma RanOn(w: World, history: seq<Deed>, log: seq<Event>, visits: seq<(nat, nat)>, results: seq<Visit>,
              runs: seq<Run>, visit: (nat, nat), v: Visit, run: Run)
    requires |visits| == |results| == |runs| && log == Joined(runs) && |history| == EndOf(runs)
    requires forall i | 0 <= i < |runs| :: runs[i].start == EndOf(runs[..i])
    requires forall i | 0 <= i < |runs| :: Visited(w.arms, history, visits[i].1, results[i], runs[i])
    requires w.Continues(history, log) && run == Run(|history|, |w.history|, w.log[|log|..])
    requires Visited(w.arms, w.history, visit.1, v, run)
    ensures Ran(w, visits + [visit], results + [v], runs + [run])
  {
    hide Visited, Joined, EndOf;
    RunsChain(runs, run);
    assert w.log == log + run.events;
    ghost var vs, rs, all := visits + [visit], results + [v], runs + [run];
    forall i | 0 <= i < |all| ensures Visited(w.arms, w.history, vs[i].1, rs[i], all[i]) {
      if i < |runs| {
        StillVisited(w.arms, history, w.history, visits[i].1, results[i], runs[i]);
      }
    }
  }

  lemma IsVisited(w: World, history: seq<Deed>, log: seq<Event>, arm: nat, v: Visit)
    requires w.Sound() && w.Continues(history, log) && IsAttempt(w.arms, arm, w.log[|log|..])
    requires v == Recorded(false) <==> w.CleanSince(|history|)
    requires v == Recorded(false) ==> IsRepetition(w.arms, arm, w.log[|log|..])
    requires Becomes(w.history[|history|..], v) && Opens(w.arms, arm, w.history[|history|..], w.log[|log|..])
    ensures Visited(w.arms, w.history, arm, v, Run(|history|, |w.history|, w.log[|log|..]))
  {
    hide IsAttempt, IsRepetition, Becomes, Opens;
    var events := w.log[|log|..];
    assert w.history[|history|..|w.history|] == w.history[|history|..];
    forall e | e in events ensures |history| <= e.at <= |w.history| {
      var k :| 0 <= k < |events| && events[k] == e;
      assert w.log[|log| + k] == e;
    }
  }

  /** `run`'s loop. Arms are visited interleaved and in order; the steps and the events are those of the
      visits, one after another; the counts are of the records and of the refusals, a recorded refusal
      being both; and the sweep ends early only for a panic, or for a refusal when asked to. Whatever
      fails, nothing but what failed drops and removals left reaches a truncation, another arm's window
      or the end. */
  method RunSweep(arms: seq<Arm>, fate: Fate, reps: nat, failFast: bool)
    returns (w: World, emitted: nat, refused: nat, visits: seq<(nat, nat)>, results: seq<Visit>,
             ghost runs: seq<Run>)
    requires forall a | a in arms :: a.Valid()
    ensures w.arms == arms && w.fate == fate && w.AtRest() && Ran(w, visits, results, runs)
    ensures emitted == Emitted(results) && refused == Refusals(results)
    ensures visits <= Schedule(reps, |arms|)
    ensures || (visits == Schedule(reps, |arms|) && AllGoOn(results, failFast))
            || (results != [] && !GoesOn(results[|results| - 1], failFast)
                && AllGoOn(results[..|results| - 1], failFast))
    ensures forall e | e in w.log :: LeaksNothing(arms, fate, e)
    ensures DropsSucceed(fate, |w.history|) ==> w.live == {}
    ensures RemovalsSucceed(fate, |w.history|) ==> w.running == {}
    ensures (forall kind: Kind, k: nat :: fate(kind, k) == Done) ==>
              visits == Schedule(reps, |arms|) && forall i | 0 <= i < |results| :: results[i] == Recorded(false)
  {
    hide World.AtRest, Schedule, IsAttempt, IsRepetition, Round, Ran, LeaksNothing, World.Kept, Visited;
    hide Becomes, Clean, Opens;
    w := new World(arms, fate);
    emitted, refused, visits, results, runs := 0, 0, [], [], [];
    StartOfSweep(w, reps);
    for rep := 0 to reps
      invariant fresh(w) && w.arms == arms && w.fate == fate && w.AtRest()
      invariant Ran(w, visits, results, runs) && AllGoOn(results, failFast)
      invariant emitted == Emitted(results) && refused == Refusals(results)
      invariant visits == Schedule(rep, |arms|)
    {
      RoundStarts(rep, |arms|, reps);
      for arm := 0 to |arms|
        invariant fresh(w) && w.arms == arms && w.fate == fate && w.AtRest()
        invariant Ran(w, visits, results, runs) && AllGoOn(results, failFast)
        invariant emitted == Emitted(results) && refused == Refusals(results)
        invariant visits == Schedule(rep, |arms|) + Round(rep + 1, arm)
      {
        RoundGrows(reps, rep, arm, |arms|);
        ghost var history, log := w.history, w.log;
        RanOpens(w, visits, results, runs);
        var v := MeasureArm(w, arm);
        RestIsSound(w);
        IsVisited(w, history, log, arm, v);
        ghost var run := Run(|history|, |w.history|, w.log[|log|..]);
        RanOn(w, history, log, visits, results, runs, (rep + 1, arm), v, run);
        visits, runs := visits + [(rep + 1, arm)], runs + [run];
        results := results + [v];
        assert results[..|results| - 1] + [v] == results;
        var stop := true;
        match v {
          case Recorded(refusal) =>
            emitted := emitted + 1;
            if refusal {
              refused := refused + 1;
            }
            stop := refusal && failFast;
          case Unrecorded =>
            refused := refused + 1;
            stop := failFast;
          case Aborted =>
        }
        if stop {
          AfterSweep(w, visits, results, runs);
          return;
        }
      }
    }
    AfterSweep(w, visits, results, runs);
  }

  lemma RanOpens(w: World, visits: seq<(nat, nat)>, results: seq<Visit>, runs: seq<Run>)
    requires Ran(w, visits, results, runs)
    ensures |visits| == |results| == |runs| && w.log == Joined(runs) && |w.history| == EndOf(runs)
    ensures forall i | 0 <= i < |runs| :: runs[i].start == EndOf(runs[..i])
    ensures forall i | 0 <= i < |runs| :: Visited(w.arms, w.history, visits[i].1, results[i], runs[i])
  {
    hide Visited;
  }

  lemma RestIsSound(w: World)
    requires w.AtRest()
    ensures w.Sound()
  {
    hide World.Kept;
  }

  lemma StartOfSweep(w: World, reps: nat)
    requires w.log == [] && w.history == []
    ensures Ran(w, [], [], []) && Schedule(0, |w.arms|) == []
  {
  }

  lemma RoundStarts(rep: nat, n: nat, reps: nat)
    ensures Schedule(rep, n) + Round(rep + 1, 0) == Schedule(rep, n)
    ensures Schedule(rep + 1, n) == Schedule(rep, n) + Round(rep + 1, n)
  {
  }

  lemma RoundGrows(reps: nat, rep: nat, arm: nat, n: nat)
    requires rep < reps && arm < n
    ensures Schedule(rep, n) + Round(rep + 1, arm) + [(rep + 1, arm)] == Schedule(rep, n) + Round(rep + 1, arm + 1)
    ensures Schedule(rep, n) + Round(rep + 1, arm + 1) <= Schedule(reps, n)
  {
    hide Schedule;
    assert Round(rep + 1, arm + 1) == Round(rep + 1, arm) + [(rep + 1, arm)];
    PartOfSchedule(reps, rep, arm + 1, n);
  }

  lemma {:induction false} PartOfSchedule(reps: nat, rep: nat, k: nat, n: nat)
    requires rep < reps && k <= n
    ensures Schedule(rep, n) + Round(rep + 1, k) <= Schedule(reps, n)
    decreases reps
  {
    if rep + 1 == reps {
      assert Round(rep + 1, k) <= Round(rep + 1, n);
    } else {
      PartOfSchedule(reps - 1, rep, k, n);
    }
  }

  // ----- when nothing fails to go

  /** Up to the given step the oracle lets every drop go through. */
  ghost predicate DropsSucceed(fate: Fate, n: nat) { forall k: nat | k < n :: fate(Dropping, k).Done? }

  /** Up to the given step the oracle lets every removal take effect. */
  ghost predicate RemovalsSucceed(fate: Fate, n: nat) { forall k: nat | k < n :: fate(Removing, k).TookEffect() }

  /** However the other steps end: while drops succeed nothing is live at a truncation and a window holds
      its own arm's objects only; while removals succeed nothing runs at a truncation or an
      end-of-repetition teardown and a window holds its own arm's containers only. */
  ghost predicate LeaksNothing(arms: seq<Arm>, fate: Fate, e: Event) {
    && (DropsSucceed(fate, e.at) ==>
          match e
          case Truncated(_, _, s) => s.live == {}
          case Window(_, arm, s) => arm < |arms| && s.live <= ToSet(arms[arm].creates)
          case EndTeardown(_, _, _) => true)
    && (RemovalsSucceed(fate, e.at) ==>
          match e
          case Window(_, arm, s) => arm < |arms| && s.running <= ToSet(arms[arm].containers)
          case _ => e.state.running == {})
  }

  lemma NothingOwed(arms: seq<Arm>, live: set<Obj>)
    requires Owed(arms, live, {})
    ensures live == {}
  {
    assert forall o :: o !in live;
  }

  /** An arm is dirty only by a drop that failed, a container astray only by a removal that did. */
  lemma {:induction false} OnlyFailuresLeave(fate: Fate, history: seq<Deed>, n: nat)
    requires Lawful(fate, history) && n <= |history|
    ensures DropsSucceed(fate, n) ==> StateOf(history[..n]).dirty == {}
    ensures RemovalsSucceed(fate, n) ==> StateOf(history[..n]).strays == {}
    decreases n
  {
    if n > 0 {
      var k := n - 1;
      OnlyFailuresLeave(fate, history, k);
      assert history[..n][..k] == history[..k] && history[..n][k] == history[k];
      assert IsLawful(fate, StateOf(history[..k]), history[k], k);
    }
  }

  /** The sweep's safety at one event of its log, for every fate. */
  lemma NothingLeaks(w: World, e: Event)
    requires w.Sound() && e in w.log
    ensures LeaksNothing(w.arms, w.fate, e)
  {
    hide StateOf, Lawful;
    var k :| 0 <= k < |w.log| && w.log[k] == e;
    var s := e.state;
    OnlyFailuresLeave(w.fate, w.history, e.at);
    assert Safe(w.arms, e) && s == StateOf(w.history[..e.at]);
    if RemovalsSucceed(w.fate, e.at) {
      assert s.Loose() == s.running;
    }
    if DropsSucceed(w.fate, e.at) {
      if e.Truncated? {
        NothingOwed(w.arms, s.live);
      } else if e.Window? {
        var own := ToSet(w.arms[e.arm].creates);
        NothingOwed(w.arms, s.live - own);
        assert forall o | o in s.live :: o in own || o in s.live - own;
      }
    }
  }

  /** What is left when the sweep is over, and what an oracle that lets everything through makes of it. */
  lemma AfterSweep(w: World, visits: seq<(nat, nat)>, results: seq<Visit>, runs: seq<Run>)
    requires w.AtRest() && Ran(w, visits, results, runs)
    ensures forall e | e in w.log :: LeaksNothing(w.arms, w.fate, e)
    ensures DropsSucceed(w.fate, |w.history|) ==> w.live == {}
    ensures RemovalsSucceed(w.fate, |w.history|) ==> w.running == {}
    ensures (forall kind: Kind, k: nat :: w.fate(kind, k) == Done) ==>
              |visits| == |results| && forall i | 0 <= i < |results| :: results[i] == Recorded(false)
  {
    hide LeaksNothing, Ran, StateOf, Told;
    forall e | e in w.log ensures LeaksNothing(w.arms, w.fate, e) {
      NothingLeaks(w, e);
    }
    var n := |w.history|;
    OnlyFailuresLeave(w.fate, w.history, n);
    assert w.history[..n] == w.history;
    if DropsSucceed(w.fate, n) {
      NothingOwed(w.arms, w.live);
    }
    if RemovalsSucceed(w.fate, n) {
      assert w.Loose() == w.running;
    }
    if forall kind: Kind, k: nat :: w.fate(kind, k) == Done {
      RanOpens(w, visits, results, runs);
      NothingFails(w.fate, w.history);
    }
  }

  lemma NothingFails(fate: Fate, history: seq<Deed>)
    requires Lawful(fate, history) && forall kind: Kind, k: nat :: fate(kind, k) == Done
    ensures forall k | 0 <= k < |history| :: !history[k].Failed()
  {
    hide StateOf;
    forall k | 0 <= k < |history| ensures !history[k].Failed() {
      OnlyFailuresLeave(fate, history, k);
      assert IsLawful(fate, StateOf(history[..k]), history[k], k);
    }
  }
}

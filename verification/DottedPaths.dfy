/** A leaf's path by the keys and positions that lead to it, joined with dots. */
module DottedPaths {
  import opened Dataset
  import opened Decimal
  import opened Wire

  function Join(keys: seq<string>): string {
    if keys == [] then ""
    else if |keys| == 1 then keys[0]
    else Join(keys[..|keys| - 1]) + "." + keys[|keys| - 1]
  }

  /** Empty keys at the front leave no mark in a path. */
  function Stripped(keys: seq<string>): seq<string> {
    if keys != [] && keys[0] == "" then Stripped(keys[1..]) else keys
  }

  function Dotted(keys: seq<string>): string { Join(Stripped(keys)) }

  lemma {:induction false} StrippedAppend(keys: seq<string>, key: string)
    ensures Stripped(keys + [key]) == if Stripped(keys) == [] then Stripped([key]) else Stripped(keys) + [key]
  {
    if keys == [] {
      assert keys + [key] == [key];
    } else {
      assert (keys + [key])[1..] == keys[1..] + [key];
      if keys[0] == "" {
        StrippedAppend(keys[1..], key);
      }
    }
  }

  lemma {:induction false} StrippedStarts(keys: seq<string>)
    ensures Stripped(keys) == [] || Stripped(keys)[0] != ""
  {
    if keys != [] && keys[0] == "" {
      StrippedStarts(keys[1..]);
    }
  }

  lemma {:induction false} JoinIsEmpty(keys: seq<string>)
    requires keys == [] || keys[0] != ""
    ensures Join(keys) == "" <==> keys == []
  {
    if |keys| > 1 {
      JoinIsEmpty(keys[..|keys| - 1]);
    }
  }

  lemma StrippedOne(key: string)
    ensures Join(Stripped([key])) == key
  {
    assert [key][1..] == [];
  }

  /** One key further down. */
  lemma ChildIsDotted(keys: seq<string>, key: string)
    ensures Child(Dotted(keys), key) == Dotted(keys + [key])
  {
    var s := Stripped(keys);
    StrippedAppend(keys, key);
    StrippedStarts(keys);
    JoinIsEmpty(s);
    if s == [] {
      StrippedOne(key);
    } else {
      assert (s + [key])[..|s|] == s && (s + [key])[|s|] == key;
    }
  }

  // ----- routes

  datatype Spot = Spot(keys: seq<string>, value: Value)

  /** The n-th child and what it is called: an entry by its key, an item by its position. */
  function Step(v: Value, n: nat): Option<(string, Value)> {
    match v
    case Table(entries) => EntryAt(entries, n)
    case Array(items) => (match ItemAt(items, n) case None => None case Some(value) => Some((Numeral(n), value)))
    case _ => None
  }

  /** Where a route ends, if at something that is neither table nor array, with the keys along it. */
  function Walk(keys: seq<string>, v: Value, route: seq<nat>): Option<Spot>
    decreases |route|
  {
    if route == [] then (if v.Table? || v.Array? then None else Some(Spot(keys, v)))
    else
      match Step(v, route[0])
      case None => None
      case Some((key, child)) => Walk(keys + [key], child, route[1..])
  }

  function LeafAt(s: Spot): Leaf { Leaf(Dotted(s.keys), s.value) }

  lemma {:induction false} WalkReaches(keys: seq<string>, v: Value, route: seq<nat>)
    ensures Reached(Dotted(keys), v, route)
         == match Walk(keys, v, route) case None => None case Some(s) => Some(LeafAt(s))
    decreases |route|
  {
    hide Dotted, Child, Numeral;
    if route != [] && Step(v, route[0]).Some? {
      var (key, child) := Step(v, route[0]).value;
      ChildIsDotted(keys, key);
      WalkReaches(keys + [key], child, route[1..]);
    }
  }

  /** A leaf is the scalar some route leads to, its path the keys and positions along the route, joined
      with dots. */
  lemma LeafIsDotted(v: Value, l: Leaf)
    ensures l in Leaves([], v)
       <==> exists route :: Walk([], v, route).Some? && l == LeafAt(Walk([], v, route).value)
  {
    hide Leaves, Reached, Walk, Dotted;
    LeavesAreReached([], v, l);
    assert Dotted([]) == [] by {
      NoKeys();
    }
    if l in Leaves([], v) {
      var route :| Reached([], v, route) == Some(l);
      WalkReaches([], v, route);
    }
    if route :| Walk([], v, route).Some? && l == LeafAt(Walk([], v, route).value) {
      WalkReaches([], v, route);
    }
  }

  lemma NoKeys()
    ensures Dotted([]) == []
  {
  }

  // ----- all the scalars of a file

  function Spots(keys: seq<string>, v: Value): seq<Spot>
    decreases v
  {
    match v
    case Table(entries) => SpotsOfEntries(keys, entries)
    case Array(items) => SpotsOfItems(keys, items, 0)
    case _ => [Spot(keys, v)]
  }

  function SpotsOfEntries(keys: seq<string>, entries: Entries): seq<Spot>
    decreases entries
  {
    match entries
    case NoEntry => []
    case Entry(key, value, rest) => Spots(keys + [key], value) + SpotsOfEntries(keys, rest)
  }

  function SpotsOfItems(keys: seq<string>, items: Items, i: nat): seq<Spot>
    decreases items
  {
    match items
    case NoItem => []
    case Item(head, tail) => Spots(keys + [Numeral(i)], head) + SpotsOfItems(keys, tail, i + 1)
  }

  function LeavesAt(ss: seq<Spot>): (ls: seq<Leaf>)
    ensures |ls| == |ss| && forall i | 0 <= i < |ss| :: ls[i] == LeafAt(ss[i])
  {
    seq(|ss|, i requires 0 <= i < |ss| => LeafAt(ss[i]))
  }

  lemma LeavesAtAppend(a: seq<Spot>, b: seq<Spot>)
    ensures LeavesAt(a + b) == LeavesAt(a) + LeavesAt(b)
  {
    hide LeafAt;
  }

  lemma {:induction false} LeavesOfSpots(keys: seq<string>, v: Value)
    ensures Leaves(Dotted(keys), v) == LeavesAt(Spots(keys, v))
    decreases v
  {
    hide Dotted, LeavesOfEntries, LeavesOfItems, SpotsOfEntries, SpotsOfItems;
    match v
    case Table(entries) => LeavesOfEntrySpots(keys, entries);
    case Array(items) => LeavesOfItemSpots(keys, items, 0);
    case _ =>
  }

  lemma {:induction false} LeavesOfEntrySpots(keys: seq<string>, entries: Entries)
    ensures LeavesOfEntries(Dotted(keys), entries) == LeavesAt(SpotsOfEntries(keys, entries))
    decreases entries
  {
    hide Dotted, Leaves, Spots, Child, LeafAt;
    if entries.Entry? {
      ChildIsDotted(keys, entries.key);
      LeavesOfSpots(keys + [entries.key], entries.value);
      LeavesOfEntrySpots(keys, entries.rest);
      LeavesAtAppend(Spots(keys + [entries.key], entries.value), SpotsOfEntries(keys, entries.rest));
    }
  }

  lemma {:induction false} LeavesOfItemSpots(keys: seq<string>, items: Items, i: nat)
    ensures LeavesOfItems(Dotted(keys), items, i) == LeavesAt(SpotsOfItems(keys, items, i))
    decreases items
  {
    hide Dotted, Leaves, Spots, Child, LeafAt, Numeral;
    if items.Item? {
      ChildIsDotted(keys, Numeral(i));
      LeavesOfSpots(keys + [Numeral(i)], items.head);
      LeavesOfItemSpots(keys, items.tail, i + 1);
      LeavesAtAppend(Spots(keys + [Numeral(i)], items.head), SpotsOfItems(keys, items.tail, i + 1));
    }
  }

  // ----- keys a path tells apart

  predicate IsTidy(key: string) { key != "" && '.' !in key && '\n' !in key }

  predicate AllTidy(keys: seq<string>) { forall k | k in keys :: IsTidy(k) }

  predicate TidyKeys(v: Value)
    decreases v
  {
    match v
    case Table(entries) => TidyEntries(entries)
    case Array(items) => TidyItems(items)
    case _ => true
  }

  predicate TidyEntries(entries: Entries)
    decreases entries
  {
    match entries
    case NoEntry => true
    case Entry(key, value, rest) => IsTidy(key) && TidyKeys(value) && TidyEntries(rest)
  }

  predicate TidyItems(items: Items)
    decreases items
  {
    match items
    case NoItem => true
    case Item(head, tail) => TidyKeys(head) && TidyItems(tail)
  }

  lemma PositionIsTidy(n: nat)
    ensures IsTidy(Numeral(n))
  {
    forall i | 0 <= i < |Numeral(n)| ensures '0' <= Numeral(n)[i] <= '9' {
      DigitGivesBack(Digits(n)[i]);
    }
  }

  predicate TidySpots(ss: seq<Spot>) { forall s | s in ss :: AllTidy(s.keys) }

  lemma {:induction false} SpotsAreTidy(keys: seq<string>, v: Value)
    requires AllTidy(keys) && TidyKeys(v)
    ensures TidySpots(Spots(keys, v))
    decreases v
  {
    hide IsTidy;
    match v
    case Table(entries) => EntrySpotsAreTidy(keys, entries);
    case Array(items) => ItemSpotsAreTidy(keys, items, 0);
    case _ =>
  }

  lemma {:induction false} EntrySpotsAreTidy(keys: seq<string>, entries: Entries)
    requires AllTidy(keys) && TidyEntries(entries)
    ensures TidySpots(SpotsOfEntries(keys, entries))
    decreases entries
  {
    hide IsTidy, Spots;
    if entries.Entry? {
      SpotsAreTidy(keys + [entries.key], entries.value);
      EntrySpotsAreTidy(keys, entries.rest);
    }
  }

  lemma {:induction false} ItemSpotsAreTidy(keys: seq<string>, items: Items, i: nat)
    requires AllTidy(keys) && TidyItems(items)
    ensures TidySpots(SpotsOfItems(keys, items, i))
    decreases items
  {
    hide IsTidy, Spots, Numeral;
    if items.Item? {
      PositionIsTidy(i);
      SpotsAreTidy(keys + [Numeral(i)], items.head);
      ItemSpotsAreTidy(keys, items.tail, i + 1);
    }
  }

  lemma TidyIsDotted(keys: seq<string>)
    requires AllTidy(keys)
    ensures Dotted(keys) == Join(keys)
  {
    assert keys != [] ==> keys[0] in keys;
  }

  lemma {:induction false} JoinIsOneLine(keys: seq<string>)
    requires AllTidy(keys)
    ensures '\n' !in Join(keys)
    decreases |keys|
  {
    if keys != [] {
      assert keys[|keys| - 1] in keys;
      if |keys| > 1 {
        JoinIsOneLine(keys[..|keys| - 1]);
      }
    }
  }

  /** The last dot is where the last key starts. */
  lemma LastDotsMatch(a: string, x: string, b: string, y: string)
    requires '.' !in x && '.' !in y && a + "." + x == b + "." + y
    ensures a == b && x == y
  {
    var s := a + "." + x;
    NoDotAfter(a, x);
    NoDotAfter(b, y);
    assert s[..|a|] == a && s[..|b|] == b && s[|a| + 1..] == x && s[|b| + 1..] == y;
  }

  lemma NoDotAfter(a: string, x: string)
    requires '.' !in x
    ensures var s := a + "." + x; s[|a|] == '.' && forall k | |a| < k < |s| :: s[k] != '.'
  {
    var s := a + "." + x;
    forall k | |a| < k < |s| ensures s[k] != '.' {
      assert s[k] == x[k - |a| - 1];
    }
  }

  lemma {:induction false} JoinIsInjective(a: seq<string>, b: seq<string>)
    requires AllTidy(a) && AllTidy(b) && Join(a) == Join(b)
    ensures a == b
    decreases |a|
  {
    hide IsTidy;
    FirstIsInk(a);
    FirstIsInk(b);
    JoinIsEmpty(a);
    JoinIsEmpty(b);
    if a != [] {
      var m, n := |a| - 1, |b| - 1;
      LastIsTidy(a);
      LastIsTidy(b);
      DotsSeparate(a);
      DotsSeparate(b);
      if m > 0 && n > 0 {
        LastDotsMatch(Join(a[..m]), a[m], Join(b[..n]), b[n]);
        JoinIsInjective(a[..m], b[..n]);
        assert a == a[..m] + [a[m]] && b == b[..n] + [b[n]];
      }
    }
  }

  lemma DotsSeparate(a: seq<string>)
    requires AllTidy(a) && a != []
    ensures '.' in Join(a) <==> |a| > 1
  {
    hide IsTidy;
    LastIsTidy(a);
    if |a| > 1 {
      assert Join(a)[|Join(a[..|a| - 1])|] == '.';
    }
  }

  lemma FirstIsInk(a: seq<string>)
    requires AllTidy(a)
    ensures a == [] || a[0] != ""
  {
    assert a != [] ==> a[0] in a;
  }

  lemma LastIsTidy(a: seq<string>)
    requires AllTidy(a) && a != []
    ensures '.' !in a[|a| - 1] && forall k | k in a[..|a| - 1] :: k in a
  {
    assert a[|a| - 1] in a;
  }

  lemma SpotsMatch(s: Spot, t: Spot)
    requires AllTidy(s.keys) && AllTidy(t.keys) && LeafAt(s) == LeafAt(t)
    ensures s == t
  {
    hide Dotted;
    TidyIsDotted(s.keys);
    TidyIsDotted(t.keys);
    JoinIsInjective(s.keys, t.keys);
  }

  lemma {:induction false} SpotCount(ss: seq<Spot>, s: Spot)
    requires TidySpots(ss) && AllTidy(s.keys)
    ensures multiset(LeavesAt(ss))[LeafAt(s)] == multiset(ss)[s]
    decreases |ss|
  {
    hide LeafAt, AllTidy, LeavesAt;
    if ss == [] {
      NoSpots();
    } else {
      var head, tail := ss[0], ss[1..];
      TidyTail(ss);
      LeavesAtCons(head, tail);
      SpotCount(tail, s);
      CountCons(head, tail, s);
      CountCons(LeafAt(head), LeavesAt(tail), LeafAt(s));
      if LeafAt(head) == LeafAt(s) {
        SpotsMatch(head, s);
      }
    }
  }

  lemma NoSpots()
    ensures LeavesAt([]) == []
  {
  }

  lemma TidyTail(ss: seq<Spot>)
    requires ss != [] && TidySpots(ss)
    ensures ss == [ss[0]] + ss[1..] && AllTidy(ss[0].keys) && TidySpots(ss[1..])
  {
    hide AllTidy;
    assert ss[0] in ss && forall t | t in ss[1..] :: t in ss;
  }

  lemma LeavesAtCons(s: Spot, ss: seq<Spot>)
    ensures LeavesAt([s] + ss) == [LeafAt(s)] + LeavesAt(ss)
  {
    hide LeafAt;
  }

  /** Files whose keys are not empty and hold neither a dot nor a newline have one canonical form exactly
      when they hold the same scalars at the same lists of keys and positions. */
  lemma TidyFilesAreExact(v: Value, w: Value)
    requires Canonical(v).Some? && Canonical(w).Some? && TidyKeys(v) && TidyKeys(w)
    ensures Canonical(v) == Canonical(w) <==> multiset(Spots([], v)) == multiset(Spots([], w))
  {
    hide Leaves, Spots, Canonical, LeafAt, Dotted, AllTidy;
    TidyLeaves(v);
    TidyLeaves(w);
    CanonicalIsExact(v, w);
    var ss, ts := Spots([], v), Spots([], w);
    if multiset(LeavesAt(ss)) == multiset(LeavesAt(ts)) {
      forall s ensures multiset(ss)[s] == multiset(ts)[s] {
        if s in ss || s in ts {
          SpotCount(ss, s);
          SpotCount(ts, s);
        }
      }
    }
    if multiset(ss) == multiset(ts) {
      forall l ensures multiset(LeavesAt(ss))[l] == multiset(LeavesAt(ts))[l] {
        if l in LeavesAt(ss) {
          var i :| 0 <= i < |ss| && LeavesAt(ss)[i] == l;
          SpotCount(ss, ss[i]);
          SpotCount(ts, ss[i]);
        } else if l in LeavesAt(ts) {
          var i :| 0 <= i < |ts| && LeavesAt(ts)[i] == l;
          SpotCount(ss, ts[i]);
          SpotCount(ts, ts[i]);
        }
      }
    }
  }

  lemma TidyLeaves(v: Value)
    requires TidyKeys(v)
    ensures Leaves([], v) == LeavesAt(Spots([], v)) && TidySpots(Spots([], v)) && PathsAreLines(v)
  {
    hide Leaves, Spots, Dotted, IsTidy;
    NoKeys();
    LeavesOfSpots([], v);
    SpotsAreTidy([], v);
    forall l | l in Leaves([], v) ensures '\n' !in l.path {
      var i :| 0 <= i < |Spots([], v)| && LeavesAt(Spots([], v))[i] == l;
      var s := Spots([], v)[i];
      assert s in Spots([], v);
      TidyIsDotted(s.keys);
      JoinIsOneLine(s.keys);
    }
  }
}

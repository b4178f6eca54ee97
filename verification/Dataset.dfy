/** What the dataset version is a digest of: the canonical form of the workload file, and the framing
    that feeds every input into the hash. */
module Dataset {
  import opened Decimal
  import opened Wire

  // ----- framing

  /** A label without NUL and the bytes it names; no Rust slice is as long as 2^64. */
  datatype Input = Input(name: Bytes, bytes: Bytes) {
    predicate Valid() { 0 !in name && |bytes| < U64 }
  }

  function Framed(i: Input): Bytes { i.name + [0] + LE(8, |i.bytes|) + i.bytes }

  function Stream(inputs: seq<Input>): Bytes {
    if inputs == [] then [] else Framed(inputs[0]) + Stream(inputs[1..])
  }

  class Digest {
    var fed: Bytes

    constructor ()
      ensures fed == []
    {
      fed := [];
    }

    method Update(bytes: Bytes)
      modifies this
      ensures fed == old(fed) + bytes
    {
      fed := fed + bytes;
    }
  }

  /** `absorb`. */
  method Absorb(h: Digest, i: Input)
    modifies h
    ensures h.fed == old(h.fed) + Framed(i)
  {
    h.Update(i.name);
    h.Update([0]);
    h.Update(LE(8, |i.bytes|));
    h.Update(i.bytes);
    Regroup4(old(h.fed), i.name, [0], LE(8, |i.bytes|), i.bytes);
  }

  lemma Regroup4(a: Bytes, b: Bytes, c: Bytes, d: Bytes, e: Bytes)
    ensures a + b + c + d + e == a + (b + c + d + e)
  {
  }

  method AbsorbAll(h: Digest, inputs: seq<Input>)
    modifies h
    ensures h.fed == old(h.fed) + Stream(inputs)
  {
    hide Framed;
    StreamEnds(inputs);
    for k := 0 to |inputs|
      invariant h.fed + Stream(inputs[k..]) == old(h.fed) + Stream(inputs)
    {
      assert inputs[k..][0] == inputs[k] && inputs[k..][1..] == inputs[k + 1..];
      ghost var before := h.fed;
      Absorb(h, inputs[k]);
      Assoc(before, Framed(inputs[k]), Stream(inputs[k + 1..]));
    }
  }

  lemma StreamEnds(inputs: seq<Input>)
    ensures inputs[0..] == inputs && Stream(inputs[|inputs|..]) == []
  {
  }

  /** The first NUL ends the label, the next eight bytes count the rest. */
  function LabelEnd(s: Bytes): (n: nat)
    ensures n <= |s| && (n < |s| ==> s[n] == 0) && 0 !in s[..n]
  {
    if s == [] || s[0] == 0 then 0 else
      var n := 1 + LabelEnd(s[1..]);
      assert s[..n] == [s[0]] + s[1..][..n - 1];
      n
  }

  lemma {:induction false} LabelEndIs(name: Bytes, rest: Bytes)
    requires 0 !in name
    ensures LabelEnd(name + [0] + rest) == |name|
    decreases |name|
  {
    var s := name + [0] + rest;
    if name != [] {
      assert s[1..] == name[1..] + [0] + rest && name[0] in name;
      LabelEndIs(name[1..], rest);
    }
  }

  lemma NamesMatch(a: Bytes, x: Bytes, b: Bytes, y: Bytes)
    requires 0 !in a && 0 !in b && a + [0] + x == b + [0] + y
    ensures a == b && x == y
  {
    LabelEndIs(a, x);
    LabelEndIs(b, y);
    assert (a + [0] + x)[..|a|] == a && (b + [0] + y)[..|b|] == b;
    assert (a + [0] + x)[|a| + 1..] == x && (b + [0] + y)[|b| + 1..] == y;
  }

  lemma PrefixesMatch(a: Bytes, s: Bytes, b: Bytes, t: Bytes)
    requires |a| == |b| && a + s == b + t
    ensures a == b && s == t
  {
    assert (a + s)[..|a|] == a && (b + t)[..|b|] == b;
    assert (a + s)[|a|..] == s && (b + t)[|b|..] == t;
  }

  lemma FrameOpens(a: Input, s: Bytes)
    ensures Framed(a) + s == a.name + [0] + (LE(8, |a.bytes|) + (a.bytes + s))
  {
    hide LE;
  }

  lemma FramesMatch(a: Input, s: Bytes, b: Input, t: Bytes)
    requires a.Valid() && b.Valid() && Framed(a) + s == Framed(b) + t
    ensures a == b && s == t
  {
    hide LE, Framed;
    FrameOpens(a, s);
    FrameOpens(b, t);
    NamesMatch(a.name, LE(8, |a.bytes|) + (a.bytes + s), b.name, LE(8, |b.bytes|) + (b.bytes + t));
    CountsMatch(|a.bytes|, a.bytes + s, |b.bytes|, b.bytes + t);
    PrefixesMatch(a.bytes, s, b.bytes, t);
  }

  lemma CountsMatch(m: nat, s: Bytes, n: nat, t: Bytes)
    requires m < U64 && n < U64 && LE(8, m) + s == LE(8, n) + t
    ensures m == n && s == t
  {
    hide LE, FromLE;
    PrefixesMatch(LE(8, m), s, LE(8, n), t);
    PowersOf256();
    FromLEInvertsLE(8, m);
    FromLEInvertsLE(8, n);
  }

  /** Two lists of inputs that feed the digest the same bytes are the same list. */
  lemma {:induction false} StreamIsInjective(a: seq<Input>, b: seq<Input>)
    requires (forall i | i in a :: i.Valid()) && (forall i | i in b :: i.Valid())
    requires Stream(a) == Stream(b)
    ensures a == b
    decreases |a|
  {
    hide Framed;
    if a == [] || b == [] {
      FramedIsNot(a);
      FramedIsNot(b);
    } else {
      assert a[0] in a && b[0] in b;
      FramesMatch(a[0], Stream(a[1..]), b[0], Stream(b[1..]));
      StreamIsInjective(a[1..], b[1..]);
      assert a == [a[0]] + a[1..] && b == [b[0]] + b[1..];
    }
  }

  lemma FramedIsNot(a: seq<Input>)
    ensures Stream(a) == [] <==> a == []
  {
    if a != [] {
      assert |Framed(a[0])| >= 9;
    }
  }

  // ----- the workload file

  /** A float is the text it prints as. */
  datatype Value =
    | Table(entries: Entries)
    | Array(items: Items)
    | String(text: string)
    | Integer(i: int)
    | Float(printed: string)
    | Boolean(b: bool)
    | Datetime
  datatype Entries = NoEntry | Entry(key: string, value: Value, rest: Entries)
  datatype Items = NoItem | Item(head: Value, tail: Items)

  predicate IsScalar(v: Value) { !v.Table? && !v.Array? && !v.Datetime? }

  datatype Leaf = Leaf(path: string, value: Value)

  function Child(path: string, key: string): string { if path == [] then key else path + "." + key }

  function Leaves(path: string, v: Value): seq<Leaf>
    decreases v
  {
    match v
    case Table(entries) => LeavesOfEntries(path, entries)
    case Array(items) => LeavesOfItems(path, items, 0)
    case _ => [Leaf(path, v)]
  }

  function LeavesOfEntries(path: string, entries: Entries): seq<Leaf>
    decreases entries
  {
    match entries
    case NoEntry => []
    case Entry(key, value, rest) => Leaves(Child(path, key), value) + LeavesOfEntries(path, rest)
  }

  function LeavesOfItems(path: string, items: Items, i: nat): seq<Leaf>
    decreases items
  {
    match items
    case NoItem => []
    case Item(head, tail) => Leaves(Child(path, Numeral(i)), head) + LeavesOfItems(path, tail, i + 1)
  }

  // ----- a leaf is a scalar some route leads to

  function EntryAt(entries: Entries, n: nat): Option<(string, Value)> {
    match entries
    case NoEntry => None
    case Entry(key, value, rest) => if n == 0 then Some((key, value)) else EntryAt(rest, n - 1)
  }

  function ItemAt(items: Items, n: nat): Option<Value> {
    match items
    case NoItem => None
    case Item(head, tail) => if n == 0 then Some(head) else ItemAt(tail, n - 1)
  }

  /** The n-th child with its path. */
  function ChildAt(path: string, v: Value, n: nat): Option<(string, Value)> {
    match v
    case Table(entries) =>
      (match EntryAt(entries, n) case None => None case Some((key, value)) => Some((Child(path, key), value)))
    case Array(items) =>
      (match ItemAt(items, n) case None => None case Some(value) => Some((Child(path, Numeral(n)), value)))
    case _ => None
  }

  /** Where a route of child numbers ends, if at something that is neither table nor array. */
  function Reached(path: string, v: Value, route: seq<nat>): Option<Leaf>
    decreases |route|
  {
    if route == [] then (if v.Table? || v.Array? then None else Some(Leaf(path, v)))
    else
      match ChildAt(path, v, route[0])
      case None => None
      case Some((inner, child)) => Reached(inner, child, route[1..])
  }

  predicate InEntry(path: string, entries: Entries, n: nat, l: Leaf) {
    EntryAt(entries, n).Some? && l in Leaves(Child(path, EntryAt(entries, n).value.0), EntryAt(entries, n).value.1)
  }

  predicate InItem(path: string, items: Items, i: nat, n: nat, l: Leaf) {
    ItemAt(items, n).Some? && l in Leaves(Child(path, Numeral(i + n)), ItemAt(items, n).value)
  }

  lemma EntrySteps(path: string, entries: Entries, n: nat, l: Leaf)
    requires entries.Entry?
    ensures InEntry(path, entries, 0, l) <==> l in Leaves(Child(path, entries.key), entries.value)
    ensures InEntry(path, entries, n + 1, l) <==> InEntry(path, entries.rest, n, l)
  {
    hide Leaves, Child;
  }

  lemma ItemSteps(path: string, items: Items, i: nat, n: nat, l: Leaf)
    requires items.Item?
    ensures InItem(path, items, i, 0, l) <==> l in Leaves(Child(path, Numeral(i)), items.head)
    ensures InItem(path, items, i, n + 1, l) <==> InItem(path, items.tail, i + 1, n, l)
  {
    hide Leaves, Child, Numeral;
    assert i + (n + 1) == i + 1 + n;
  }

  lemma {:induction false} EntryLeaves(path: string, entries: Entries, l: Leaf)
    ensures l in LeavesOfEntries(path, entries) <==> exists n: nat :: InEntry(path, entries, n, l)
    decreases entries
  {
    hide Leaves, Child, InEntry;
    if entries.NoEntry? {
      NoChildren(path, 0, l);
    } else {
      EntryLeaves(path, entries.rest, l);
      EntrySteps(path, entries, 0, l);
      if n: nat :| InEntry(path, entries, n, l) {
        if n > 0 {
          EntrySteps(path, entries, n - 1, l);
        }
      }
      if n: nat :| InEntry(path, entries.rest, n, l) {
        EntrySteps(path, entries, n, l);
        assert InEntry(path, entries, n + 1, l);
      }
    }
  }

  lemma {:induction false} ItemLeaves(path: string, items: Items, i: nat, l: Leaf)
    ensures l in LeavesOfItems(path, items, i) <==> exists n: nat :: InItem(path, items, i, n, l)
    decreases items
  {
    hide Leaves, Child, InItem, Numeral;
    if items.NoItem? {
      NoChildren(path, i, l);
    } else {
      var next := i + 1;
      ItemLeaves(path, items.tail, next, l);
      ItemSteps(path, items, i, 0, l);
      if n: nat :| InItem(path, items, i, n, l) {
        if n > 0 {
          ItemSteps(path, items, i, n - 1, l);
        }
      }
      if n: nat :| InItem(path, items.tail, next, n, l) {
        ItemSteps(path, items, i, n, l);
        assert InItem(path, items, i, n + 1, l);
      }
    }
  }

  lemma NoChildren(path: string, i: nat, l: Leaf)
    ensures forall n: nat :: !InEntry(path, NoEntry, n, l) && !InItem(path, NoItem, i, n, l)
  {
  }

  lemma {:induction false} LeafHasRoute(path: string, v: Value, l: Leaf) returns (route: seq<nat>)
    requires l in Leaves(path, v)
    ensures Reached(path, v, route) == Some(l)
    decreases v
  {
    hide Child, Numeral, LeavesOfEntries, LeavesOfItems;
    if v.Table? || v.Array? {
      var n := ChildHolding(path, v, l);
      var tail := LeafHasRoute(ChildAt(path, v, n).value.0, ChildAt(path, v, n).value.1, l);
      route := [n] + tail;
      assert route[1..] == tail;
    } else {
      route := [];
    }
  }

  lemma {:induction false} RouteIsLeaf(path: string, v: Value, route: seq<nat>, l: Leaf)
    requires Reached(path, v, route) == Some(l)
    ensures l in Leaves(path, v)
    decreases |route|
  {
    hide Child, Numeral, LeavesOfEntries, LeavesOfItems;
    if route != [] {
      RouteIsLeaf(ChildAt(path, v, route[0]).value.0, ChildAt(path, v, route[0]).value.1, route[1..], l);
      ChildHolds(path, v, route[0], l);
    }
  }

  /** The leaves are exactly what the routes into the value reach. */
  lemma LeavesAreReached(path: string, v: Value, l: Leaf)
    ensures l in Leaves(path, v) <==> exists route :: Reached(path, v, route) == Some(l)
  {
    hide Reached, Leaves;
    if l in Leaves(path, v) {
      var route := LeafHasRoute(path, v, l);
    }
    if route :| Reached(path, v, route) == Some(l) {
      RouteIsLeaf(path, v, route, l);
    }
  }

  lemma ChildHolding(path: string, v: Value, l: Leaf) returns (n: nat)
    requires (v.Table? || v.Array?) && l in Leaves(path, v)
    ensures ChildAt(path, v, n).Some? && ChildAt(path, v, n).value.1 < v
    ensures l in Leaves(ChildAt(path, v, n).value.0, ChildAt(path, v, n).value.1)
  {
    hide Child, Numeral, LeavesOfEntries, LeavesOfItems;
    if v.Table? {
      EntryLeaves(path, v.entries, l);
      n :| InEntry(path, v.entries, n, l);
    } else {
      ItemLeaves(path, v.items, 0, l);
      n :| InItem(path, v.items, 0, n, l);
    }
    ChildIsSmaller(path, v, n);
  }

  lemma ChildHolds(path: string, v: Value, n: nat, l: Leaf)
    requires ChildAt(path, v, n).Some? && l in Leaves(ChildAt(path, v, n).value.0, ChildAt(path, v, n).value.1)
    ensures l in Leaves(path, v)
  {
    hide Child, Numeral, LeavesOfEntries, LeavesOfItems;
    if v.Table? {
      assert InEntry(path, v.entries, n, l);
      EntryLeaves(path, v.entries, l);
    } else {
      assert InItem(path, v.items, 0, n, l);
      ItemLeaves(path, v.items, 0, l);
    }
  }

  lemma ChildIsSmaller(path: string, v: Value, n: nat)
    requires ChildAt(path, v, n).Some?
    ensures ChildAt(path, v, n).value.1 < v
  {
    if v.Table? { EntryIsSmaller(v.entries, n); } else { ItemIsSmaller(v.items, n); }
  }

  lemma {:induction false} EntryIsSmaller(entries: Entries, n: nat)
    requires EntryAt(entries, n).Some?
    ensures EntryAt(entries, n).value.1 < entries
    decreases n
  {
    if n > 0 { EntryIsSmaller(entries.rest, n - 1); }
  }

  lemma {:induction false} ItemIsSmaller(items: Items, n: nat)
    requires ItemAt(items, n).Some?
    ensures ItemAt(items, n).value < items
    decreases n
  {
    if n > 0 { ItemIsSmaller(items.tail, n - 1); }
  }

  predicate Clean(s: string) { '\t' !in s && '\n' !in s }

  /** The leaves a canonical form exists for: no datetime, no separator in a string. */
  predicate Renderable(l: Leaf) {
    IsScalar(l.value) && (l.value.String? ==> Clean(l.value.text)) && (l.value.Float? ==> Clean(l.value.printed))
  }

  function Sign(i: int): string { if i < 0 then "-" else "" }

  function TextOf(v: Value): string
    requires IsScalar(v)
  {
    match v
    case String(text) => text
    case Integer(i) => Sign(i) + Numeral(if i < 0 then -i else i)
    case Float(printed) => printed
    case Boolean(b) => if b then "true" else "false"
  }

  function Letter(v: Value): char
    requires IsScalar(v)
  {
    match v
    case String(_) => 's'
    case Integer(_) => 'i'
    case Float(_) => 'f'
    case Boolean(_) => 'b'
  }

  function LineOf(l: Leaf): string
    requires Renderable(l)
  {
    l.path + "\t" + [Letter(l.value)] + "\t" + TextOf(l.value) + "\n"
  }

  predicate AllRenderable(ls: seq<Leaf>) { forall l | l in ls :: Renderable(l) }

  function LinesOf(ls: seq<Leaf>): (lines: seq<string>)
    requires AllRenderable(ls)
    ensures |lines| == |ls| && forall i | 0 <= i < |ls| :: lines[i] == LineOf(ls[i])
  {
    seq(|ls|, i requires 0 <= i < |ls| => LineOf(ls[i]))
  }

  // ----- sorting

  /** Code points decide the order of strings as bytes do in UTF-8. */
  predicate Leq(a: string, b: string) {
    a == [] || (b != [] && (a[0] < b[0] || (a[0] == b[0] && Leq(a[1..], b[1..]))))
  }

  lemma {:induction false} LeqIsTotal(a: string, b: string)
    ensures Leq(a, b) || Leq(b, a)
    ensures Leq(a, b) && Leq(b, a) ==> a == b
    decreases |a|
  {
    if a != [] && b != [] && a[0] == b[0] {
      LeqIsTotal(a[1..], b[1..]);
      assert a == [a[0]] + a[1..] && b == [b[0]] + b[1..];
    }
  }

  lemma {:induction false} LeqIsTransitive(a: string, b: string, c: string)
    requires Leq(a, b) && Leq(b, c)
    ensures Leq(a, c)
    decreases |a|
  {
    if a != [] && a[0] == b[0] == c[0] {
      LeqIsTransitive(a[1..], b[1..], c[1..]);
    }
  }

  predicate IsSorted(xs: seq<string>) { forall i | 0 <= i < |xs| - 1 :: Leq(xs[i], xs[i + 1]) }

  function Insert(x: string, xs: seq<string>): (r: seq<string>)
    requires IsSorted(xs)
    ensures IsSorted(r) && multiset(r) == multiset(xs) + multiset{x}
    ensures r[0] == x || (xs != [] && r[0] == xs[0])
  {
    if xs == [] then [x]
    else if Leq(x, xs[0]) then assert [x] + xs == [x] + xs; [x] + xs
    else
      LeqIsTotal(x, xs[0]);
      assert xs == [xs[0]] + xs[1..];
      [xs[0]] + Insert(x, xs[1..])
  }

  function Sort(xs: seq<string>): (r: seq<string>)
    ensures IsSorted(r) && multiset(r) == multiset(xs)
  {
    if xs == [] then [] else
      assert xs == [xs[0]] + xs[1..];
      Insert(xs[0], Sort(xs[1..]))
  }

  lemma {:induction false} HeadIsLeast(xs: seq<string>, x: string)
    requires IsSorted(xs) && x in multiset(xs)
    ensures Leq(xs[0], x)
    decreases |xs|
  {
    LeqIsTotal(xs[0], xs[0]);
    if x != xs[0] {
      assert xs == [xs[0]] + xs[1..];
      HeadIsLeast(xs[1..], x);
      LeqIsTransitive(xs[0], xs[1], x);
    }
  }

  lemma {:induction false} SortedIsUnique(xs: seq<string>, ys: seq<string>)
    requires IsSorted(xs) && IsSorted(ys) && multiset(xs) == multiset(ys)
    ensures xs == ys
    decreases |xs|
  {
    hide Leq;
    assert |xs| == |multiset(xs)| == |multiset(ys)| == |ys|;
    if xs != [] {
      HeadsMatch(xs, ys);
      TailOf(xs);
      TailOf(ys);
      SortedIsUnique(xs[1..], ys[1..]);
      assert xs == [xs[0]] + xs[1..] && ys == [ys[0]] + ys[1..];
    }
  }

  lemma TailOf(xs: seq<string>)
    requires xs != [] && IsSorted(xs)
    ensures IsSorted(xs[1..]) && multiset(xs[1..]) == multiset(xs) - multiset{xs[0]}
  {
    assert xs == [xs[0]] + xs[1..];
  }

  lemma HeadsMatch(xs: seq<string>, ys: seq<string>)
    requires xs != [] && ys != [] && IsSorted(xs) && IsSorted(ys) && multiset(xs) == multiset(ys)
    ensures xs[0] == ys[0]
  {
    hide Leq;
    assert xs[0] in multiset(xs) && ys[0] in multiset(ys);
    HeadIsLeast(xs, ys[0]);
    HeadIsLeast(ys, xs[0]);
    LeqIsTotal(xs[0], ys[0]);
  }

  // ----- the canonical form

  function Concat(lines: seq<string>): string { if lines == [] then [] else lines[0] + Concat(lines[1..]) }

  /** `None` where the build script panics. */
  function Canonical(v: Value): Option<string> {
    var leaves := Leaves([], v);
    if AllRenderable(leaves) then Some(Concat(Sort(LinesOf(leaves)))) else None
  }

  // ----- a line gives back its leaf

  function DigitAt(c: char): (d: digit) { if '0' <= c <= '9' then (c - '0') as int else 0 }

  function DigitsAt(s: string): (ds: seq<digit>)
    ensures |ds| == |s| && forall i | 0 <= i < |s| :: ds[i] == DigitAt(s[i])
  {
    seq(|s|, i requires 0 <= i < |s| => DigitAt(s[i]))
  }

  function NumeralValue(s: string): nat { ValueOf(DigitsAt(s)) }

  lemma DigitGivesBack(d: digit)
    ensures '0' <= '0' + d as char <= '9' && DigitAt('0' + d as char) == d
  {
  }

  lemma NumeralGivesBack(n: nat)
    ensures NumeralValue(Numeral(n)) == n && Numeral(n) != [] && Clean(Numeral(n)) && Numeral(n)[0] != '-'
  {
    var ds := Digits(n);
    ValueOfDigits(n);
    forall i | 0 <= i < |ds| ensures DigitAt(Numeral(n)[i]) == ds[i] && '0' <= Numeral(n)[i] <= '9' {
      DigitGivesBack(ds[i]);
    }
    assert DigitsAt(Numeral(n)) == ds;
  }

  lemma IntegersMatch(i: int, j: int)
    requires TextOf(Integer(i)) == TextOf(Integer(j))
    ensures i == j
  {
    hide Numeral, NumeralValue;
    var m, n := if i < 0 then -i else i, if j < 0 then -j else j;
    NumeralGivesBack(m);
    NumeralGivesBack(n);
    assert TextOf(Integer(i))[0] == (if i < 0 then '-' else Numeral(m)[0]);
    assert TextOf(Integer(j))[0] == (if j < 0 then '-' else Numeral(n)[0]);
    assert TextOf(Integer(i))[|Sign(i)|..] == Numeral(m) && TextOf(Integer(j))[|Sign(j)|..] == Numeral(n);
  }

  lemma TextIsClean(l: Leaf)
    requires Renderable(l)
    ensures Clean(TextOf(l.value))
  {
    if l.value.Integer? {
      NumeralGivesBack(if l.value.i < 0 then -l.value.i else l.value.i);
    }
  }

  lemma ValuesMatch(v: Value, w: Value)
    requires IsScalar(v) && IsScalar(w) && Letter(v) == Letter(w) && TextOf(v) == TextOf(w)
    ensures v == w
  {
    if v.Integer? {
      IntegersMatch(v.i, w.i);
    } else if v.Boolean? {
      assert "true"[0] != "false"[0];
    }
  }

  /** A value's text holds no tab, so the last tab of a line starts it. */
  lemma LastTabsMatch(a: string, x: string, b: string, y: string)
    requires '\t' !in x && '\t' !in y && a + ['\t'] + x == b + ['\t'] + y
    ensures a == b && x == y
  {
    var s := a + ['\t'] + x;
    NoTabAfter(a, x);
    NoTabAfter(b, y);
    assert s[..|a|] == a && s[..|b|] == b && s[|a| + 1..] == x && s[|b| + 1..] == y;
  }

  lemma NoTabAfter(a: string, x: string)
    requires '\t' !in x
    ensures var s := a + ['\t'] + x; s[|a|] == '\t' && forall k | |a| < k < |s| :: s[k] != '\t'
  {
    var s := a + ['\t'] + x;
    forall k | |a| < k < |s| ensures s[k] != '\t' {
      assert s[k] == x[k - |a| - 1];
    }
  }

  lemma LineParts(l: Leaf)
    requires Renderable(l)
    ensures LineOf(l) == (l.path + ("\t" + [Letter(l.value)])) + ['\t'] + (TextOf(l.value) + "\n")
  {
    hide TextOf, Letter;
  }

  lemma LinesMatch(l: Leaf, m: Leaf)
    requires Renderable(l) && Renderable(m) && LineOf(l) == LineOf(m)
    ensures l == m
  {
    hide TextOf, Letter, LineOf;
    LineParts(l);
    LineParts(m);
    TextIsClean(l);
    TextIsClean(m);
    var x, y := TextOf(l.value) + "\n", TextOf(m.value) + "\n";
    var a, b := l.path + ("\t" + [Letter(l.value)]), m.path + ("\t" + [Letter(m.value)]);
    LastTabsMatch(a, x, b, y);
    assert x[..|x| - 1] == TextOf(l.value) && y[..|y| - 1] == TextOf(m.value);
    assert a[..|a| - 2] == l.path && a[|a| - 1] == Letter(l.value);
    assert b[..|b| - 2] == m.path && b[|b| - 1] == Letter(m.value);
    ValuesMatch(l.value, m.value);
  }

  // ----- the text gives back its lines

  /** One line: a newline at its end and nowhere else. */
  predicate IsLine(s: string) { s != [] && s[|s| - 1] == '\n' && '\n' !in s[..|s| - 1] }

  lemma FirstLinesMatch(a: string, s: string, b: string, t: string)
    requires IsLine(a) && IsLine(b) && a + s == b + t
    ensures a == b && s == t
  {
    var z := a + s;
    NoNewlineBefore(a, s);
    NoNewlineBefore(b, t);
    assert z[..|a|] == a && z[..|b|] == b && z[|a|..] == s && z[|b|..] == t;
  }

  lemma NoNewlineBefore(a: string, s: string)
    requires IsLine(a)
    ensures (a + s)[|a| - 1] == '\n' && forall k | 0 <= k < |a| - 1 :: (a + s)[k] != '\n'
  {
    forall k | 0 <= k < |a| - 1 ensures (a + s)[k] != '\n' {
      assert (a + s)[k] == a[..|a| - 1][k];
    }
  }

  lemma ConcatIsEmpty(xs: seq<string>)
    requires forall x | x in xs :: IsLine(x)
    ensures Concat(xs) == [] <==> xs == []
  {
    if xs != [] {
      assert xs[0] in xs;
    }
  }

  lemma {:induction false} TextsMatch(xs: seq<string>, ys: seq<string>)
    requires (forall x | x in xs :: IsLine(x)) && (forall y | y in ys :: IsLine(y)) && Concat(xs) == Concat(ys)
    ensures xs == ys
    decreases |xs|
  {
    hide IsLine;
    if xs == [] || ys == [] {
      ConcatIsEmpty(xs);
      ConcatIsEmpty(ys);
    } else {
      assert xs[0] in xs && ys[0] in ys;
      FirstLinesMatch(xs[0], Concat(xs[1..]), ys[0], Concat(ys[1..]));
      TextsMatch(xs[1..], ys[1..]);
      assert xs == [xs[0]] + xs[1..] && ys == [ys[0]] + ys[1..];
    }
  }

  lemma LineIsLine(l: Leaf)
    requires Renderable(l) && '\n' !in l.path
    ensures IsLine(LineOf(l))
  {
    hide TextOf, Letter;
    TextIsClean(l);
    var s := LineOf(l);
    LetterIsClean(l.value);
    assert s[..|s| - 1] == l.path + "\t" + [Letter(l.value)] + "\t" + TextOf(l.value);
  }

  lemma LetterIsClean(v: Value)
    requires IsScalar(v)
    ensures Letter(v) != '\n'
  {
  }

  // ----- equal bags of leaves and equal bags of lines

  lemma CountCons<T>(x: T, xs: seq<T>, y: T)
    ensures multiset([x] + xs)[y] == (if x == y then 1 else 0) + multiset(xs)[y]
  {
  }

  lemma LinesCons(l: Leaf, ls: seq<Leaf>)
    requires AllRenderable([l] + ls)
    ensures Renderable(l) && AllRenderable(ls) && LinesOf([l] + ls) == [LineOf(l)] + LinesOf(ls)
  {
    hide Renderable, LineOf;
    assert ([l] + ls)[0] == l;
    assert forall m | m in ls :: m in [l] + ls;
  }

  lemma {:induction false} LineCount(ls: seq<Leaf>, l: Leaf)
    requires Renderable(l) && AllRenderable(ls)
    ensures multiset(LinesOf(ls))[LineOf(l)] == multiset(ls)[l]
    decreases |ls|
  {
    hide LineOf, Renderable, AllRenderable, LinesOf;
    if ls == [] {
      NoLines(ls);
    } else {
      var head, tail := ls[0], ls[1..];
      assert ls == [head] + tail;
      LinesCons(head, tail);
      LineCount(tail, l);
      CountCons(head, tail, l);
      CountCons(LineOf(head), LinesOf(tail), LineOf(l));
      if LineOf(head) == LineOf(l) {
        LinesMatch(head, l);
      }
    }
  }

  lemma NoLines(ls: seq<Leaf>)
    requires ls == []
    ensures AllRenderable(ls) && LinesOf(ls) == []
  {
  }

  lemma BagsMatch(ls: seq<Leaf>, ms: seq<Leaf>)
    requires AllRenderable(ls) && AllRenderable(ms)
    ensures multiset(LinesOf(ls)) == multiset(LinesOf(ms)) <==> multiset(ls) == multiset(ms)
  {
    hide LineOf, Renderable;
    if multiset(LinesOf(ls)) == multiset(LinesOf(ms)) {
      forall l ensures multiset(ls)[l] == multiset(ms)[l] {
        if l in ls || l in ms {
          LineCount(ls, l);
          LineCount(ms, l);
        }
      }
    }
    if multiset(ls) == multiset(ms) {
      forall s ensures multiset(LinesOf(ls))[s] == multiset(LinesOf(ms))[s] {
        if s in LinesOf(ls) {
          var i :| 0 <= i < |ls| && LinesOf(ls)[i] == s;
          LineCount(ls, ls[i]);
          LineCount(ms, ls[i]);
        } else if s in LinesOf(ms) {
          var i :| 0 <= i < |ms| && LinesOf(ms)[i] == s;
          LineCount(ls, ms[i]);
          LineCount(ms, ms[i]);
        }
      }
    }
  }

  /** No path holds a newline: no key does. */
  predicate PathsAreLines(v: Value) { forall l | l in Leaves([], v) :: '\n' !in l.path }

  /** Equal canonical text is the same bag of (path, type, value) leaves, and the other way round. */
  lemma CanonicalIsExact(v: Value, w: Value)
    requires Canonical(v).Some? && Canonical(w).Some? && PathsAreLines(v) && PathsAreLines(w)
    ensures Canonical(v) == Canonical(w) <==> multiset(Leaves([], v)) == multiset(Leaves([], w))
  {
    hide Leaves, Sort, Concat, LineOf, Renderable;
    var ls, ms := Leaves([], v), Leaves([], w);
    var xs, ys := LinesOf(ls), LinesOf(ms);
    BagsMatch(ls, ms);
    if multiset(xs) == multiset(ys) {
      SortedIsUnique(Sort(xs), Sort(ys));
    }
    if Concat(Sort(xs)) == Concat(Sort(ys)) {
      SortedAreLines(ls);
      SortedAreLines(ms);
      TextsMatch(Sort(xs), Sort(ys));
      assert multiset(xs) == multiset(Sort(xs)) == multiset(Sort(ys)) == multiset(ys);
    }
  }

  lemma SortedAreLines(ls: seq<Leaf>)
    requires AllRenderable(ls) && forall l | l in ls :: '\n' !in l.path
    ensures forall x | x in Sort(LinesOf(ls)) :: IsLine(x)
  {
    hide Sort, LineOf, Renderable, IsLine;
    forall x | x in Sort(LinesOf(ls)) ensures IsLine(x) {
      assert x in multiset(Sort(LinesOf(ls)));
      assert x in multiset(LinesOf(ls));
      var i :| 0 <= i < |ls| && LinesOf(ls)[i] == x;
      LineIsLine(ls[i]);
    }
  }

  /** A key with a newline can spell two leaves: a table of one entry and a table of two share a
      canonical form. */
  lemma NewlineInKeyIsAmbiguous(p: string, t: string, q: string, u: string)
    requires Clean(t) && Clean(u) && Leq(p + "\ts\t" + t + "\n", q + "\ts\t" + u + "\n")
    ensures var v := Table(Entry(p + "\ts\t" + t + "\n" + q, String(u), NoEntry));
            var w := Table(Entry(p, String(t), Entry(q, String(u), NoEntry)));
            && Canonical(v) == Canonical(w) != None
            && multiset(Leaves([], v)) != multiset(Leaves([], w))
  {
    hide Leq, LineOf, Canonical, LeavesOfEntries, Renderable;
    var both := Leaf(p + "\ts\t" + t + "\n" + q, String(u));
    var first, second := Leaf(p, String(t)), Leaf(q, String(u));
    var v, w := Table(Entry(both.path, String(u), NoEntry)), Table(Entry(p, String(t), Entry(q, String(u), NoEntry)));
    LeavesOfOne(both.path, u);
    LeavesOfTwo(p, t, q, u);
    LineOfString(both);
    LineOfString(first);
    LineOfString(second);
    CanonicalOfOne(v, both);
    CanonicalOfTwo(w, first, second);
    Regrouped(p + "\ts\t" + t + "\n", q, "\ts\t", u, "\n");
    var one: seq<Leaf>, two: seq<Leaf> := [both], [first, second];
    assert |multiset(one)| == 1 && |multiset(two)| == 2;
  }

  lemma CanonicalOfOne(v: Value, l: Leaf)
    requires Leaves([], v) == [l] && Renderable(l)
    ensures Canonical(v) == Some(LineOf(l))
  {
    hide Leaves, LineOf, Renderable, Leq, Sort, Concat;
    LeqIsTotal(LineOf(l), LineOf(l));
    SortedPair(LineOf(l), LineOf(l));
    assert LinesOf([l]) == [LineOf(l)];
  }

  lemma CanonicalOfTwo(v: Value, l: Leaf, m: Leaf)
    requires Leaves([], v) == [l, m] && Renderable(l) && Renderable(m) && Leq(LineOf(l), LineOf(m))
    ensures Canonical(v) == Some(LineOf(l) + LineOf(m))
  {
    hide Leaves, LineOf, Renderable, Leq, Sort, Concat;
    SortedPair(LineOf(l), LineOf(m));
    assert LinesOf([l, m]) == [LineOf(l), LineOf(m)];
  }

  lemma Regrouped(a: string, b: string, c: string, d: string, e: string)
    ensures (a + b) + c + d + e == a + (b + c + d + e)
  {
  }

  lemma LeavesOfOne(key: string, text: string)
    ensures LeavesOfEntries([], Entry(key, String(text), NoEntry)) == [Leaf(key, String(text))]
  {
  }

  lemma LeavesOfTwo(p: string, t: string, q: string, u: string)
    ensures LeavesOfEntries([], Entry(p, String(t), Entry(q, String(u), NoEntry)))
         == [Leaf(p, String(t)), Leaf(q, String(u))]
  {
    LeavesOfOne(q, u);
  }

  lemma LineOfString(l: Leaf)
    requires l.value.String? && Clean(l.value.text)
    ensures Renderable(l) && LineOf(l) == l.path + "\ts\t" + l.value.text + "\n"
  {
  }

  lemma SortedPair(a: string, b: string)
    requires Leq(a, b)
    ensures Concat(Sort([a, b])) == a + b && Concat(Sort([b])) == b
  {
    hide Leq;
    assert [b][1..] == [] && [a, b][1..] == [b];
    assert Sort([]) == [] && Insert(b, []) == [b];
    assert Sort([b]) == [b];
    assert Insert(a, [b]) == [a] + [b];
    assert Sort([a, b]) == [a, b];
    assert Concat([b]) == b + Concat([]);
  }

  // ----- key order is immaterial

  function EntrySeq(entries: Entries): seq<(string, Value)> {
    match entries
    case NoEntry => []
    case Entry(key, value, rest) => [(key, value)] + EntrySeq(rest)
  }

  /** The same up to the order of entries, in every table at every depth. */
  ghost predicate Reordered(v: Value, w: Value)
    decreases v
  {
    match v
    case Table(entries) =>
      w.Table? && exists es :: multiset(es) == multiset(EntrySeq(w.entries)) && ReorderedEntries(entries, es)
    case Array(items) => w.Array? && ReorderedItems(items, w.items)
    case _ => v == w
  }

  ghost predicate ReorderedEntries(entries: Entries, es: seq<(string, Value)>)
    decreases entries
  {
    match entries
    case NoEntry => es == []
    case Entry(key, value, rest) =>
      es != [] && es[0].0 == key && Reordered(value, es[0].1) && ReorderedEntries(rest, es[1..])
  }

  ghost predicate ReorderedItems(items: Items, others: Items)
    decreases items
  {
    match items
    case NoItem => others == NoItem
    case Item(head, tail) => others.Item? && Reordered(head, others.head) && ReorderedItems(tail, others.tail)
  }

  function LeavesOfSeq(path: string, es: seq<(string, Value)>): seq<Leaf> {
    if es == [] then [] else Leaves(Child(path, es[0].0), es[0].1) + LeavesOfSeq(path, es[1..])
  }

  lemma {:induction false} LeavesOfEntrySeq(path: string, entries: Entries)
    ensures LeavesOfSeq(path, EntrySeq(entries)) == LeavesOfEntries(path, entries)
    decreases entries
  {
    hide Leaves, Child;
    if entries.Entry? {
      LeavesOfEntrySeq(path, entries.rest);
      assert EntrySeq(entries)[1..] == EntrySeq(entries.rest);
    }
  }

  lemma {:induction false} LeavesOfSeqAppend(path: string, es: seq<(string, Value)>, fs: seq<(string, Value)>)
    ensures LeavesOfSeq(path, es + fs) == LeavesOfSeq(path, es) + LeavesOfSeq(path, fs)
    decreases |es|
  {
    hide Leaves, Child;
    if es == [] {
      assert es + fs == fs;
    } else {
      assert (es + fs)[1..] == es[1..] + fs;
      LeavesOfSeqAppend(path, es[1..], fs);
      AssocLeaves(Leaves(Child(path, es[0].0), es[0].1), LeavesOfSeq(path, es[1..]), LeavesOfSeq(path, fs));
    }
  }

  lemma Without<T>(xs: seq<T>, i: nat)
    requires i < |xs|
    ensures xs == xs[..i] + ([xs[i]] + xs[i + 1..])
    ensures multiset(xs[..i] + xs[i + 1..]) == multiset(xs) - multiset{xs[i]}
  {
    assert xs == xs[..i] + ([xs[i]] + xs[i + 1..]);
  }

  /** An entry taken out of a table takes its own leaves. */
  lemma TakeOut(path: string, es: seq<(string, Value)>, i: nat)
    requires i < |es|
    ensures multiset(es[..i] + es[i + 1..]) == multiset(es) - multiset{es[i]}
    ensures multiset(LeavesOfSeq(path, es))
         == multiset(Leaves(Child(path, es[i].0), es[i].1)) + multiset(LeavesOfSeq(path, es[..i] + es[i + 1..]))
  {
    hide Leaves, Child;
    Without(es, i);
    LeavesOfSeqAppend(path, es[..i], [es[i]] + es[i + 1..]);
    LeavesOfSeqAppend(path, es[..i], es[i + 1..]);
    assert ([es[i]] + es[i + 1..])[1..] == es[i + 1..];
  }

  lemma {:induction false} PermutedLeaves(path: string, es: seq<(string, Value)>, fs: seq<(string, Value)>)
    requires multiset(es) == multiset(fs)
    ensures multiset(LeavesOfSeq(path, es)) == multiset(LeavesOfSeq(path, fs))
    decreases |es|
  {
    hide Leaves, Child, LeavesOfSeq;
    assert |es| == |multiset(es)| == |multiset(fs)| == |fs|;
    if es != [] {
      assert es[0] in multiset(fs);
      var i :| 0 <= i < |fs| && fs[i] == es[0];
      TakeOut(path, es, 0);
      TakeOut(path, fs, i);
      PermutedLeaves(path, es[..0] + es[0 + 1..], fs[..i] + fs[i + 1..]);
    } else {
      assert es == fs;
    }
  }

  lemma {:induction false} ReorderKeepsLeaves(path: string, v: Value, w: Value)
    requires Reordered(v, w)
    ensures multiset(Leaves(path, v)) == multiset(Leaves(path, w))
    decreases v
  {
    hide Child, LeavesOfEntries, LeavesOfItems, ReorderedEntries, ReorderedItems;
    if v.Table? {
      var es :| multiset(es) == multiset(EntrySeq(w.entries)) && ReorderedEntries(v.entries, es);
      ReorderKeepsEntryLeaves(path, v.entries, es);
      PermutedLeaves(path, es, EntrySeq(w.entries));
      LeavesOfEntrySeq(path, w.entries);
    } else if v.Array? {
      ReorderKeepsItemLeaves(path, v.items, w.items, 0);
    }
  }

  lemma {:induction false} ReorderKeepsEntryLeaves(path: string, entries: Entries, es: seq<(string, Value)>)
    requires ReorderedEntries(entries, es)
    ensures multiset(LeavesOfEntries(path, entries)) == multiset(LeavesOfSeq(path, es))
    decreases entries
  {
    hide Leaves, Child, Reordered;
    if entries.Entry? {
      ReorderKeepsLeaves(Child(path, entries.key), entries.value, es[0].1);
      ReorderKeepsEntryLeaves(path, entries.rest, es[1..]);
    }
  }

  lemma {:induction false} ReorderKeepsItemLeaves(path: string, items: Items, others: Items, i: nat)
    requires ReorderedItems(items, others)
    ensures multiset(LeavesOfItems(path, items, i)) == multiset(LeavesOfItems(path, others, i))
    decreases items
  {
    hide Leaves, Child, Reordered, Numeral;
    if items.Item? {
      ReorderKeepsLeaves(Child(path, Numeral(i)), items.head, others.head);
      ReorderKeepsItemLeaves(path, items.tail, others.tail, i + 1);
    }
  }

  /** Files that differ by a permutation of the entries of any of their tables have one canonical form,
      panics included. */
  lemma KeyOrderIsImmaterial(v: Value, w: Value)
    requires Reordered(v, w)
    ensures Canonical(v) == Canonical(w)
  {
    hide Leaves, Reordered, Sort, Concat, LineOf, Renderable;
    ReorderKeepsLeaves([], v, w);
    SameBagSameForm(v, w);
  }

  lemma SameBagSameForm(v: Value, w: Value)
    requires multiset(Leaves([], v)) == multiset(Leaves([], w))
    ensures Canonical(v) == Canonical(w)
  {
    hide Leaves, Sort, Concat, LineOf, Renderable;
    var ls, ms := Leaves([], v), Leaves([], w);
    forall l ensures l in ls <==> l in ms {
      assert l in ls <==> l in multiset(ls);
      assert l in ms <==> l in multiset(ms);
    }
    if AllRenderable(ls) {
      BagsMatch(ls, ms);
      SortedIsUnique(Sort(LinesOf(ls)), Sort(LinesOf(ms)));
    }
  }

  // ----- the build script's own loop

  class Lines {
    var items: seq<string>

    constructor ()
      ensures items == []
    {
      items := [];
    }
  }

  lemma RenderableAppend(xs: seq<Leaf>, ys: seq<Leaf>)
    ensures AllRenderable(xs + ys) <==> AllRenderable(xs) && AllRenderable(ys)
    ensures AllRenderable(xs + ys) ==> LinesOf(xs + ys) == LinesOf(xs) + LinesOf(ys)
  {
    hide Renderable, LineOf;
    if AllRenderable(xs + ys) {
      forall l | l in xs || l in ys ensures Renderable(l) {
        assert l in xs + ys;
      }
    }
  }

  lemma OneRenderable(l: Leaf)
    ensures AllRenderable([l]) <==> Renderable(l)
    ensures Renderable(l) ==> LinesOf([l]) == [LineOf(l)]
  {
    hide Renderable, LineOf;
    if AllRenderable([l]) {
      assert l in [l];
    }
  }

  /** `flatten_toml`: pushes a line for every leaf, or panics. */
  method FlattenToml(path: string, v: Value, out: Lines) returns (ok: bool)
    modifies out
    ensures ok <==> AllRenderable(Leaves(path, v))
    ensures ok ==> out.items == old(out.items) + LinesOf(Leaves(path, v))
    decreases v
  {
    hide LineOf, LinesOf, AllRenderable;
    match v {
      case Table(entries) => ok := FlattenEntries(path, entries, out);
      case Array(items) => ok := FlattenItems(path, items, out);
      case Datetime =>
        assert Leaves(path, v) == [Leaf(path, v)];
        OneRenderable(Leaf(path, v));
        ok := false;
      case _ =>
        var l := Leaf(path, v);
        assert Leaves(path, v) == [l];
        OneRenderable(l);
        ok := Renderable(l);
        if ok {
          out.items := out.items + [LineOf(l)];
        }
    }
  }

  method FlattenEntries(path: string, entries: Entries, out: Lines) returns (ok: bool)
    modifies out
    ensures ok <==> AllRenderable(LeavesOfEntries(path, entries))
    ensures ok ==> out.items == old(out.items) + LinesOf(LeavesOfEntries(path, entries))
    decreases entries
  {
    hide Leaves, LinesOf, AllRenderable, Numeral, Child;
    NoLeaves();
    ok := true;
    var left := entries;
    ghost var done: seq<Leaf> := [];
    while left.Entry?
      invariant done + LeavesOfEntries(path, left) == LeavesOfEntries(path, entries)
      invariant AllRenderable(done) && out.items == old(out.items) + LinesOf(done)
      invariant left == entries || left < entries
      decreases left
    {
      ghost var leaves := Leaves(Child(path, left.key), left.value);
      RenderableAppend(done + leaves, LeavesOfEntries(path, left.rest));
      RenderableAppend(done, leaves);
      AssocLeaves(done, leaves, LeavesOfEntries(path, left.rest));
      ok := FlattenToml(Child(path, left.key), left.value, out);
      if !ok {
        return false;
      }
      done := done + leaves;
      left := left.rest;
    }
    assert done + [] == done;
  }

  method FlattenItems(path: string, items: Items, out: Lines) returns (ok: bool)
    modifies out
    ensures ok <==> AllRenderable(LeavesOfItems(path, items, 0))
    ensures ok ==> out.items == old(out.items) + LinesOf(LeavesOfItems(path, items, 0))
    decreases items
  {
    hide Leaves, LinesOf, AllRenderable, Numeral, Child;
    NoLeaves();
    ok := true;
    var left, i := items, 0;
    ghost var done: seq<Leaf> := [];
    while left.Item?
      invariant done + LeavesOfItems(path, left, i) == LeavesOfItems(path, items, 0)
      invariant AllRenderable(done) && out.items == old(out.items) + LinesOf(done)
      invariant left == items || left < items
      decreases left
    {
      ghost var leaves := Leaves(Child(path, Numeral(i)), left.head);
      RenderableAppend(done + leaves, LeavesOfItems(path, left.tail, i + 1));
      RenderableAppend(done, leaves);
      AssocLeaves(done, leaves, LeavesOfItems(path, left.tail, i + 1));
      ok := FlattenToml(Child(path, Numeral(i)), left.head, out);
      if !ok {
        return false;
      }
      done := done + leaves;
      left, i := left.tail, i + 1;
    }
    assert done + [] == done;
  }

  lemma AssocLeaves(a: seq<Leaf>, b: seq<Leaf>, c: seq<Leaf>)
    ensures a + (b + c) == a + b + c
  {
  }

  lemma NoLeaves()
    ensures AllRenderable([]) && LinesOf([]) == []
  {
  }

  /** `canonical_toml`. */
  method CanonicalToml(v: Value) returns (text: Option<string>)
    ensures text == Canonical(v)
  {
    hide Leaves, AllRenderable, LinesOf, Sort, Concat;
    var lines := new Lines();
    var ok := FlattenToml([], v, lines);
    if !ok {
      return None;
    }
    assert lines.items == LinesOf(Leaves([], v));
    return Some(Concat(Sort(lines.items)));
  }
}

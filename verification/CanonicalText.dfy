/** The canonical form of a workload file by its text. */
module CanonicalText {
  import opened Dataset
  import opened Decimal
  import opened Wire

  /** Path, tab, one letter for the type, tab, value, newline. */
  predicate SpellsLeaf(line: string, l: Leaf) {
    match l.value
    case String(text) => line == l.path + "\ts\t" + text + "\n"
    case Integer(i) =>
      && |line| > |l.path| + 4 && line[..|l.path| + 3] == l.path + "\ti\t" && line[|line| - 1] == '\n'
      && SpellsInt(line[|l.path| + 3..|line| - 1], i)
    case Float(printed) => line == l.path + "\tf\t" + printed + "\n"
    case Boolean(b) => line == l.path + (if b then "\tb\ttrue\n" else "\tb\tfalse\n")
    case _ => false
  }

  lemma LineByText(l: Leaf)
    requires Renderable(l)
    ensures SpellsLeaf(LineOf(l), l)
  {
    var line, text := LineOf(l), TextOf(l.value);
    match l.value
    case String(_) => assert line == l.path + "\ts\t" + text + "\n";
    case Integer(i) =>
      NumeralSpells(text, i);
      assert line[..|l.path| + 3] == l.path + "\ti\t" && line[|l.path| + 3..|line| - 1] == text;
      assert text != [];
    case Float(_) => assert line == l.path + "\tf\t" + text + "\n";
    case Boolean(b) => assert line == l.path + (if b then "\tb\ttrue\n" else "\tb\tfalse\n");
  }

  /** Not after: a prefix, or a smaller code point where the two first differ. */
  ghost predicate NotAfter(a: string, b: string) {
    a <= b || exists k :: DifferAt(a, b, k) && a[k] as int < b[k] as int
  }

  predicate DifferAt(a: string, b: string, k: int) { 0 <= k < |a| && k < |b| && a[..k] == b[..k] && a[k] != b[k] }

  lemma {:induction false} LeqByCodePoint(a: string, b: string)
    ensures Leq(a, b) <==> NotAfter(a, b)
    decreases |a|
  {
    if a != [] && b != [] && a[0] == b[0] {
      LeqByCodePoint(a[1..], b[1..]);
      assert a == [a[0]] + a[1..] && b == [b[0]] + b[1..];
      forall k: nat ensures DifferAt(a, b, k + 1) <==> DifferAt(a[1..], b[1..], k) {
        if k + 1 < |a| && k + 1 < |b| {
          assert a[..k + 1] == [a[0]] + a[1..][..k] && b[..k + 1] == [b[0]] + b[1..][..k];
        }
      }
      if k :| DifferAt(a[1..], b[1..], k) && a[1..][k] as int < b[1..][k] as int {
        assert DifferAt(a, b, k + 1);
      }
      if k :| DifferAt(a, b, k) && a[k] as int < b[k] as int {
        assert k > 0 && DifferAt(a[1..], b[1..], k - 1);
      }
    } else if a != [] && b != [] {
      assert DifferAt(a, b, 0);
    }
  }

  function Joined(lines: seq<string>): string {
    if lines == [] then [] else Joined(lines[..|lines| - 1]) + lines[|lines| - 1]
  }

  lemma {:induction false} ConcatIsJoined(lines: seq<string>)
    ensures Concat(lines) == Joined(lines)
  {
    if |lines| > 1 {
      var n := |lines| - 1;
      ConcatIsJoined(lines[..n]);
      ConcatLast(lines[..n], lines[n]);
      assert lines == lines[..n] + [lines[n]];
    } else if |lines| == 1 {
      assert Joined(lines[..0]) == [] && Concat(lines[1..]) == [];
    }
  }

  lemma {:induction false} ConcatLast(lines: seq<string>, last: string)
    ensures Concat(lines + [last]) == Concat(lines) + last
  {
    if lines == [] {
      assert [] + [last] == [last] && [last][1..] == [];
    } else {
      assert (lines + [last])[1..] == lines[1..] + [last];
      ConcatLast(lines[1..], last);
    }
  }

  /** One line a leaf, each spelling its leaf. */
  ghost predicate SpellsAll(lines: seq<string>, ls: seq<Leaf>) {
    |lines| == |ls| && forall i | 0 <= i < |ls| :: SpellsLeaf(lines[i], ls[i])
  }

  /** The form is the leaves' lines, as spelled above, in the order of their code points. */
  lemma FormByText(v: Value) returns (spelled: seq<string>, ascending: seq<string>)
    requires Canonical(v).Some?
    ensures SpellsAll(spelled, Leaves([], v)) && multiset(ascending) == multiset(spelled)
    ensures forall i | 0 <= i < |ascending| - 1 :: NotAfter(ascending[i], ascending[i + 1])
    ensures Canonical(v) == Some(Joined(ascending))
  {
    hide Leaves, Sort, Concat, Joined, LineOf, SpellsLeaf, Leq, NotAfter, Renderable;
    var ls := Leaves([], v);
    spelled := LinesOf(ls);
    ascending := Sort(spelled);
    forall i | 0 <= i < |ls| ensures SpellsLeaf(spelled[i], ls[i]) {
      assert ls[i] in ls;
      LineByText(ls[i]);
    }
    forall i | 0 <= i < |ascending| - 1 ensures NotAfter(ascending[i], ascending[i + 1]) {
      LeqByCodePoint(ascending[i], ascending[i + 1]);
    }
    ConcatIsJoined(ascending);
  }

  /** What has no form: a datetime, or a string that holds a tab or a newline. */
  predicate Refuses(v: Value) {
    v.Datetime? || (v.String? && ('\t' in v.text || '\n' in v.text))
  }

  predicate PrintsInOneField(v: Value) { v.Float? ==> '\t' !in v.printed && '\n' !in v.printed }

  /** A file has no form exactly when some leaf has none. (Floats print without tabs and newlines.) */
  lemma RefusedExactly(v: Value)
    requires forall l | l in Leaves([], v) :: PrintsInOneField(l.value)
    ensures Canonical(v).None? <==> exists l :: l in Leaves([], v) && Refuses(l.value)
  {
    hide Leaves, Sort, Concat, LinesOf;
    forall l | l in Leaves([], v) ensures Renderable(l) <==> !Refuses(l.value) {
      LeavesAreReached([], v, l);
      LeafIsBare(v, l);
    }
  }

  lemma LeafIsBare(v: Value, l: Leaf)
    requires l in Leaves([], v)
    ensures !l.value.Table? && !l.value.Array?
  {
    hide Leaves;
    LeavesAreReached([], v, l);
    var route :| Reached([], v, route) == Some(l);
    EndIsBare([], v, route);
  }

  lemma {:induction false} EndIsBare(path: string, v: Value, route: seq<nat>)
    requires Reached(path, v, route).Some?
    ensures var l := Reached(path, v, route).value; !l.value.Table? && !l.value.Array?
    decreases |route|
  {
    hide ChildAt;
    if route != [] {
      var next := ChildAt(path, v, route[0]).value;
      EndIsBare(next.0, next.1, route[1..]);
    }
  }
}

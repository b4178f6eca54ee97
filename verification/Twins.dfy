/** Which workload files share a canonical form: keys may hold what separates its lines. */
module Twins {
  import opened Dataset
  import opened Decimal
  import opened Wire

  // ----- which files a newline in a key makes one

  predicate HasKey(entries: Entries, key: string) {
    entries.Entry? && (entries.key == key || HasKey(entries.rest, key))
  }

  predicate DistinctKeys(v: Value)
    decreases v
  {
    match v
    case Table(entries) => DistinctEntries(entries)
    case Array(items) => DistinctItems(items)
    case _ => true
  }

  predicate DistinctEntries(entries: Entries)
    decreases entries
  {
    match entries
    case NoEntry => true
    case Entry(key, value, rest) => !HasKey(rest, key) && DistinctKeys(value) && DistinctEntries(rest)
  }

  predicate DistinctItems(items: Items)
    decreases items
  {
    match items
    case NoItem => true
    case Item(head, tail) => DistinctKeys(head) && DistinctItems(tail)
  }

  /** What a TOML file holds: a table, and in no table a key twice. */
  predicate IsFile(v: Value) { v.Table? && DistinctKeys(v) }

  /** Another file with the same canonical form, holding other leaves. */
  predicate IsTwin(v: Value, w: Value) {
    && IsFile(w)
    && Canonical(w) == Canonical(v) != None
    && multiset(Leaves([], w)) != multiset(Leaves([], v))
  }

  // ----- reading a line

  function LastTab(s: string): (n: nat)
    ensures n <= |s| && (n < |s| ==> s[n] == '\t') && forall k | n < k < |s| :: s[k] != '\t'
  {
    if '\t' !in s then |s| else if s[|s| - 1] == '\t' then |s| - 1 else LastTab(s[..|s| - 1])
  }

  function ValueFrom(letter: char, text: string): Value {
    if letter == 'i' then
      if text != [] && text[0] == '-' then Integer(0 - NumeralValue(text[1..])) else Integer(NumeralValue(text))
    else if letter == 'f' then Float(text)
    else if letter == 'b' then Boolean(text == "true")
    else String(text)
  }

  /** The leaf whose line this is, if it is the line of one. */
  function LeafOf(line: string): (l: Option<Leaf>)
    ensures l.Some? ==> Renderable(l.value) && LineOf(l.value) == line
  {
    var j := LastTab(line);
    if j < 2 || j + 1 >= |line| then None
    else
      var l := Leaf(line[..j - 2], ValueFrom(line[j - 1], line[j + 1..|line| - 1]));
      if Renderable(l) && LineOf(l) == line then Some(l) else None
  }

  lemma ValueGivesBack(v: Value)
    requires IsScalar(v)
    ensures ValueFrom(Letter(v), TextOf(v)) == v
  {
    hide Numeral, NumeralValue;
    if v.Integer? {
      var n := if v.i < 0 then -v.i else v.i;
      NumeralGivesBack(n);
      assert TextOf(v)[0] == (if v.i < 0 then '-' else Numeral(n)[0]);
      assert TextOf(v)[|Sign(v.i)|..] == Numeral(n);
    }
  }

  lemma LineGivesBack(l: Leaf)
    requires Renderable(l)
    ensures LeafOf(LineOf(l)) == Some(l)
  {
    hide TextOf, Letter, LineOf, ValueFrom;
    var line, a, x := LineOf(l), l.path + ("\t" + [Letter(l.value)]), TextOf(l.value) + "\n";
    LineParts(l);
    TextIsClean(l);
    NoTabAfter(a, x);
    var j := LastTab(line);
    assert line[|a|] == '\t';
    assert j == |a|;
    assert line[..j - 2] == l.path && line[j - 1] == Letter(l.value);
    assert line[j + 1..] == x && line[j + 1..|line| - 1] == x[..|x| - 1] == TextOf(l.value);
    ValueGivesBack(l.value);
  }

  /** The text cut behind each of its newlines. */
  function CutLines(text: string): seq<string>
    decreases |text|
  {
    if text == [] then []
    else
      var n := LineEnd(text);
      [text[..n]] + CutLines(text[n..])
  }

  function LineEnd(text: string): (n: nat)
    requires text != []
    ensures 0 < n <= |text| && '\n' !in text[..n - 1] && (n < |text| ==> text[n - 1] == '\n')
  {
    if text[0] == '\n' || |text| == 1 then 1 else
      var n := 1 + LineEnd(text[1..]);
      assert text[..n - 1] == [text[0]] + text[1..][..n - 2];
      n
  }

  lemma {:induction false} CutGivesBack(text: string)
    ensures Concat(CutLines(text)) == text
    decreases |text|
  {
    hide LineEnd;
    if text != [] {
      CutGivesBack(text[LineEnd(text)..]);
    }
  }

  lemma {:induction false} LineEndIs(line: string, rest: string)
    requires IsLine(line)
    ensures LineEnd(line + rest) == |line|
    decreases |line|
  {
    var s := line + rest;
    if |line| > 1 {
      assert line[0] == line[..|line| - 1][0];
      assert s[1..] == line[1..] + rest;
      assert line[1..][..|line| - 2] == line[..|line| - 1][1..];
      LineEndIs(line[1..], rest);
    }
  }

  lemma {:induction false} ConcatIsCut(xs: seq<string>)
    requires forall x | x in xs :: IsLine(x)
    ensures CutLines(Concat(xs)) == xs
    decreases |xs|
  {
    hide LineEnd, IsLine;
    if xs != [] {
      assert xs[0] in xs;
      var rest := Concat(xs[1..]);
      LineEndIs(xs[0], rest);
      ConcatIsCut(xs[1..]);
      assert (xs[0] + rest)[..|xs[0]|] == xs[0] && (xs[0] + rest)[|xs[0]|..] == rest;
      LinesAreNotEmpty(xs[0]);
    }
  }

  lemma LinesAreNotEmpty(x: string)
    requires IsLine(x)
    ensures x != []
  {
  }

  // ----- a text that spells leaves

  /** How many leaves have no path at all. */
  function Bare(ls: seq<Leaf>): nat {
    if ls == [] then 0 else (if ls[0].path == [] then 1 else 0) + Bare(ls[1..])
  }

  predicate AllRead(lines: seq<string>) { forall x | x in lines :: LeafOf(x).Some? }

  function ReadLeaves(lines: seq<string>): (ls: seq<Leaf>)
    requires AllRead(lines)
    ensures |ls| == |lines| && forall i | 0 <= i < |ls| :: Renderable(ls[i]) && LineOf(ls[i]) == lines[i]
  {
    seq(|lines|, i requires 0 <= i < |lines| => LeafOf(lines[i]).value)
  }

  /** Cut at its newlines, the text is an ordered list of leaf lines, no two of them without a path. */
  predicate SpellsLeaves(text: string) {
    var lines := CutLines(text);
    IsSorted(lines) && AllRead(lines) && Bare(ReadLeaves(lines)) <= 1
  }

  lemma {:induction false} BareAppend(ls: seq<Leaf>, ms: seq<Leaf>)
    ensures Bare(ls + ms) == Bare(ls) + Bare(ms)
  {
    if ls == [] {
      assert ls + ms == ms;
    } else {
      assert (ls + ms)[1..] == ls[1..] + ms;
      BareAppend(ls[1..], ms);
    }
  }

  lemma BareTakenOut(ls: seq<Leaf>, i: nat)
    requires i < |ls|
    ensures multiset(ls[..i] + ls[i + 1..]) == multiset(ls) - multiset{ls[i]}
    ensures Bare(ls) == Bare(ls[..i] + ls[i + 1..]) + if ls[i].path == [] then 1 else 0
  {
    hide Bare;
    Without(ls, i);
    BareAppend(ls[..i], [ls[i]] + ls[i + 1..]);
    BareAppend(ls[..i], ls[i + 1..]);
    BareAppend([ls[i]], ls[i + 1..]);
    BareOne(ls[i]);
  }

  lemma BareOne(l: Leaf)
    ensures Bare([l]) == if l.path == [] then 1 else 0
  {
    assert Bare([l][1..]) == 0;
  }

  lemma {:induction false} BareOfBag(ls: seq<Leaf>, ms: seq<Leaf>)
    requires multiset(ls) == multiset(ms)
    ensures Bare(ls) == Bare(ms)
    decreases |ls|
  {
    hide Bare;
    assert |ls| == |multiset(ls)| == |multiset(ms)| == |ms|;
    if ls != [] {
      assert ls[0] in multiset(ms);
      var i :| 0 <= i < |ms| && ms[i] == ls[0];
      BareTakenOut(ls, 0);
      BareTakenOut(ms, i);
      BareOfBag(ls[..0] + ls[0 + 1..], ms[..i] + ms[i + 1..]);
    } else {
      assert ls == ms;
    }
  }

  /** Behind a path no leaf is bare; without one, only what nested empty keys lead to. */
  lemma {:induction false} FewBare(path: string, v: Value)
    requires DistinctKeys(v)
    ensures Bare(Leaves(path, v)) <= if path == [] then 1 else 0
    decreases v
  {
    hide LeavesOfEntries, LeavesOfItems;
    match v
    case Table(entries) => FewBareEntries(path, entries);
    case Array(items) => FewBareItems(path, items, 0);
    case _ =>
      assert Leaves(path, v)[1..] == [];
  }

  lemma {:induction false} FewBareEntries(path: string, entries: Entries)
    requires DistinctEntries(entries)
    ensures Bare(LeavesOfEntries(path, entries)) <= if path == [] && HasKey(entries, []) then 1 else 0
    decreases entries
  {
    hide Leaves;
    if entries.Entry? {
      FewBare(Child(path, entries.key), entries.value);
      FewBareEntries(path, entries.rest);
      BareAppend(Leaves(Child(path, entries.key), entries.value), LeavesOfEntries(path, entries.rest));
    }
  }

  lemma {:induction false} FewBareItems(path: string, items: Items, i: nat)
    requires DistinctItems(items)
    ensures Bare(LeavesOfItems(path, items, i)) == 0
    decreases items
  {
    hide Leaves, Numeral;
    if items.Item? {
      NumeralGivesBack(i);
      FewBare(Child(path, Numeral(i)), items.head);
      FewBareItems(path, items.tail, i + 1);
      BareAppend(Leaves(Child(path, Numeral(i)), items.head), LeavesOfItems(path, items.tail, i + 1));
    }
  }

  // ----- a file for every list of leaves

  /** One leaf a table, the next table under the empty key; a leaf without a path comes last. */
  function Chain(ls: seq<Leaf>, bare: Option<Value>): Value {
    if ls == [] then Table(match bare case None => NoEntry case Some(v) => Entry([], v, NoEntry))
    else if ls[0].path == [] then Chain(ls[1..], Some(ls[0].value))
    else Table(Entry(ls[0].path, ls[0].value, Entry([], Chain(ls[1..], bare), NoEntry)))
  }

  function BareLeaf(bare: Option<Value>): seq<Leaf> {
    match bare case None => [] case Some(v) => [Leaf([], v)]
  }

  lemma {:induction false} ChainHolds(ls: seq<Leaf>, bare: Option<Value>)
    requires (forall l | l in ls :: IsScalar(l.value)) && (bare.Some? ==> IsScalar(bare.value))
    requires Bare(ls) + |BareLeaf(bare)| <= 1
    ensures IsFile(Chain(ls, bare))
    ensures multiset(Leaves([], Chain(ls, bare))) == multiset(ls) + multiset(BareLeaf(bare))
    decreases |ls|
  {
    hide Leaves, IsScalar;
    if ls == [] {
      ScalarLeaves(bare);
    } else {
      var l, rest := ls[0], ls[1..];
      assert ls == [l] + rest && l in ls && forall m | m in rest :: m in ls;
      if l.path == [] {
        ChainHolds(rest, Some(l.value));
        assert l == Leaf([], l.value);
      } else {
        ChainHolds(rest, bare);
        LinkHolds(l, Chain(rest, bare));
      }
    }
  }

  lemma ScalarLeaves(bare: Option<Value>)
    requires bare.Some? ==> IsScalar(bare.value)
    ensures IsFile(Chain([], bare)) && Leaves([], Chain([], bare)) == BareLeaf(bare)
  {
    if bare.Some? {
      SingleLeaf(Leaf([], bare.value));
    }
  }

  lemma SingleLeaf(l: Leaf)
    requires IsScalar(l.value)
    ensures var w := Table(Entry(l.path, l.value, NoEntry)); IsFile(w) && Leaves([], w) == [l]
  {
    assert Leaves(l.path, l.value) == [l];
    assert DistinctEntries(Entry(l.path, l.value, NoEntry)) by {
      assert DistinctEntries(NoEntry) && DistinctKeys(l.value);
    }
    assert LeavesOfEntries([], Entry(l.path, l.value, NoEntry)) == [l] + [];
  }

  lemma LinkHolds(l: Leaf, next: Value)
    requires l.path != [] && IsScalar(l.value) && IsFile(next)
    ensures var v := Table(Entry(l.path, l.value, Entry([], next, NoEntry)));
      IsFile(v) && Leaves([], v) == [l] + Leaves([], next)
  {
    hide LeavesOfItems;
    var tail := Entry([], next, NoEntry);
    assert DistinctEntries(NoEntry) && DistinctKeys(l.value) && !HasKey(NoEntry, []);
    assert DistinctEntries(tail) && !HasKey(tail, l.path);
    assert DistinctEntries(Entry(l.path, l.value, tail));
    assert LeavesOfEntries([], tail) == Leaves([], next) + LeavesOfEntries([], NoEntry);
    assert Leaves(l.path, l.value) == [l];
    assert LeavesOfEntries([], Entry(l.path, l.value, tail)) == [l] + LeavesOfEntries([], tail);
  }

  // ----- exactly when a newline-free file has the same form

  lemma SameLinesSameBag(ls: seq<Leaf>, ms: seq<Leaf>)
    requires AllRenderable(ls) && AllRenderable(ms) && multiset(LinesOf(ls)) == multiset(LinesOf(ms))
    ensures multiset(ls) == multiset(ms)
  {
    BagsMatch(ls, ms);
  }

  lemma ReadGivesLines(lines: seq<string>)
    requires AllRead(lines)
    ensures AllRenderable(ReadLeaves(lines)) && LinesOf(ReadLeaves(lines)) == lines
  {
    hide LineOf, Renderable, LeafOf;
  }

  /** The text of a newline-free file spells its leaves. */
  lemma FileSpellsLeaves(w: Value)
    requires IsFile(w) && PathsAreLines(w) && Canonical(w).Some?
    ensures SpellsLeaves(Canonical(w).value)
  {
    hide Leaves, Sort, Concat, CutLines, LineOf, Renderable, LeafOf, Bare, IsLine;
    var ms := Leaves([], w);
    var xs := Sort(LinesOf(ms));
    SortedAreLines(ms);
    ConcatIsCut(xs);
    forall x | x in xs ensures LeafOf(x).Some? {
      assert x in multiset(xs);
      assert x in multiset(LinesOf(ms));
      var i :| 0 <= i < |ms| && LinesOf(ms)[i] == x;
      LineGivesBack(ms[i]);
    }
    ReadGivesLines(xs);
    SameLinesSameBag(ReadLeaves(xs), ms);
    BareOfBag(ReadLeaves(xs), ms);
    FewBare([], w);
  }

  /** A text that spells leaves is the text of a newline-free file. */
  lemma SpelledFile(text: string) returns (w: Value)
    requires SpellsLeaves(text)
    ensures IsFile(w) && PathsAreLines(w) && Canonical(w) == Some(text)
  {
    hide Leaves, Sort, Concat, CutLines, LineOf, Renderable, LeafOf, Bare, Chain, IsFile, IsSorted;
    var lines := CutLines(text);
    var ls := ReadLeaves(lines);
    ReadGivesLines(lines);
    forall l | l in ls ensures IsScalar(l.value) && '\n' !in l.path {
      var i :| 0 <= i < |ls| && ls[i] == l;
      CutIsLine(text, lines[i]);
      PathInLine(l, lines[i]);
    }
    w := Chain(ls, None);
    ChainHolds(ls, None);
    var ms := Leaves([], w);
    assert multiset(ms) == multiset(ls) by {
      NoBareLeaf();
    }
    forall l ensures l in ms <==> l in ls {
      assert l in ms <==> l in multiset(ms);
      assert l in ls <==> l in multiset(ls);
    }
    BagsMatch(ms, ls);
    SortedIsUnique(Sort(LinesOf(ms)), lines);
    CutGivesBack(text);
  }

  lemma NoBareLeaf()
    ensures multiset(BareLeaf(None)) == multiset{}
  {
  }

  lemma PathInLine(l: Leaf, line: string)
    requires Renderable(l) && LineOf(l) == line && '\n' !in line[..|line| - 1]
    ensures IsScalar(l.value) && '\n' !in l.path
  {
    hide TextOf, Letter;
    assert l.path <= line[..|line| - 1];
    forall k | 0 <= k < |l.path| ensures l.path[k] != '\n' {
      assert line[..|line| - 1][k] == l.path[k];
    }
  }

  lemma {:induction false} CutIsLine(text: string, x: string)
    requires x in CutLines(text)
    ensures x != [] && '\n' !in x[..|x| - 1]
    decreases |text|
  {
    hide LineEnd;
    var n := LineEnd(text);
    if x == text[..n] {
      assert x[..|x| - 1] == text[..n - 1];
    } else {
      CutIsLine(text[n..], x);
    }
  }

  /** A file shares its form with a newline-free file of other leaves exactly when a newline stands in one
      of its own paths and its text, cut at the newlines, is an ordered list of leaf lines. */
  lemma AmbiguityIsExact(v: Value)
    requires Canonical(v).Some?
    ensures (exists w :: IsTwin(v, w) && PathsAreLines(w)) <==> !PathsAreLines(v) && SpellsLeaves(Canonical(v).value)
  {
    hide Leaves, Canonical, SpellsLeaves, IsFile;
    if w :| IsTwin(v, w) && PathsAreLines(w) {
      FileSpellsLeaves(w);
      if PathsAreLines(v) {
        CanonicalIsExact(v, w);
      }
    }
    if !PathsAreLines(v) && SpellsLeaves(Canonical(v).value) {
      var w := SpelledFile(Canonical(v).value);
      OtherLeaves(v, w);
      assert IsTwin(v, w);
    }
  }

  lemma OtherLeaves(v: Value, w: Value)
    requires !PathsAreLines(v) && PathsAreLines(w)
    ensures multiset(Leaves([], w)) != multiset(Leaves([], v))
  {
    hide Leaves;
    var l :| l in Leaves([], v) && '\n' in l.path;
    assert l in multiset(Leaves([], v));
    assert l in multiset(Leaves([], w)) ==> l in Leaves([], w);
  }

  // ----- any file of two leaves has a twin

  lemma {:induction false} ConcatLast(xs: seq<string>)
    requires xs != []
    ensures Concat(xs) == Concat(xs[..|xs| - 1]) + xs[|xs| - 1]
    decreases |xs|
  {
    if |xs| > 1 {
      ConcatLast(xs[1..]);
      assert xs[1..][..|xs| - 2] == xs[..|xs| - 1][1..];
    }
  }

  /** The whole text as one line: all but the last path, letter and value become the path. */
  lemma MergedFile(v: Value) returns (w: Value)
    requires Canonical(v).Some? && |Leaves([], v)| >= 2
    ensures IsTwin(v, w)
  {
    hide Leaves, Sort, Concat, LineOf, Renderable;
    var ls := Leaves([], v);
    var xs := Sort(LinesOf(ls));
    assert |xs| == |multiset(xs)| == |multiset(LinesOf(ls))| == |ls|;
    ConcatLast(xs);
    assert xs[|xs| - 1] in multiset(xs);
    assert xs[|xs| - 1] in LinesOf(ls);
    var i :| 0 <= i < |ls| && LinesOf(ls)[i] == xs[|xs| - 1];
    var l := Leaf(Concat(xs[..|xs| - 1]) + ls[i].path, ls[i].value);
    assert ls[i] in ls;
    LongerPath(Concat(xs[..|xs| - 1]), ls[i], l);
    w := Table(Entry(l.path, l.value, NoEntry));
    SingleLeaf(l);
    CanonicalOfOne(w, l);
    assert |multiset(Leaves([], w))| == 1 && |multiset(ls)| >= 2;
  }

  lemma LongerPath(before: string, l: Leaf, longer: Leaf)
    requires Renderable(l) && longer == Leaf(before + l.path, l.value)
    ensures Renderable(longer) && IsScalar(l.value) && LineOf(longer) == before + LineOf(l)
  {
    hide TextOf, Letter;
  }

  function Newlines(s: string): nat { if s == [] then 0 else (if s[0] == '\n' then 1 else 0) + Newlines(s[1..]) }

  lemma {:induction false} NewlinesAppend(a: string, b: string)
    ensures Newlines(a + b) == Newlines(a) + Newlines(b)
  {
    if a == [] {
      assert a + b == b;
    } else {
      assert (a + b)[1..] == a[1..] + b;
      NewlinesAppend(a[1..], b);
    }
  }

  lemma {:induction false} NewlinesOfLines(xs: seq<string>)
    requires forall x | x in xs :: x != [] && x[|x| - 1] == '\n'
    ensures Newlines(Concat(xs)) >= |xs|
    decreases |xs|
  {
    if xs != [] {
      var x := xs[0];
      assert x in xs && x == x[..|x| - 1] + "\n";
      NewlinesAppend(x[..|x| - 1], "\n");
      NewlinesAppend(x, Concat(xs[1..]));
      NewlinesOfLines(xs[1..]);
    }
  }

  lemma LineEnds(l: Leaf)
    requires Renderable(l)
    ensures LineOf(l) != [] && LineOf(l)[|LineOf(l)| - 1] == '\n'
  {
    hide TextOf, Letter;
  }

  lemma FewLines(v: Value)
    requires Canonical(v).Some?
    ensures |Leaves([], v)| <= Newlines(Canonical(v).value)
  {
    hide Leaves, Sort, Concat, LineOf, Renderable, Newlines;
    var ls := Leaves([], v);
    var xs := Sort(LinesOf(ls));
    assert |xs| == |multiset(xs)| == |multiset(LinesOf(ls))| == |ls|;
    forall x | x in xs ensures x != [] && x[|x| - 1] == '\n' {
      assert x in multiset(xs);
      assert x in multiset(LinesOf(ls));
      var i :| 0 <= i < |ls| && LinesOf(ls)[i] == x;
      LineEnds(ls[i]);
    }
    NewlinesOfLines(xs);
  }

  lemma {:induction false} NoNewlines(s: string)
    requires '\n' !in s
    ensures Newlines(s) == 0
  {
    if s != [] {
      NoNewlines(s[1..]);
    }
  }

  /** A file of at most one leaf, its path without a newline, has no twin. */
  lemma LoneLeaf(v: Value, w: Value)
    requires Canonical(v).Some? && PathsAreLines(v) && |Leaves([], v)| <= 1 && Canonical(w) == Canonical(v)
    ensures multiset(Leaves([], w)) == multiset(Leaves([], v))
  {
    hide Leaves, LineOf, Renderable, Canonical, IsLine, Newlines;
    var ls, ms := Leaves([], v), Leaves([], w);
    FewLines(w);
    if ls == [] {
      NoText(v);
      assert Newlines([]) == 0 by {
        NoNewlines([]);
      }
      assert ms == [];
    } else {
      var l := ls[0];
      assert ls == [l] && l in ls;
      assert Renderable(l) by {
        RenderableLeaves(v, l);
      }
      CanonicalOfOne(v, l);
      LineIsLine(l);
      OneNewline(LineOf(l));
      if ms == [] {
        NoText(w);
        LineEnds(l);
      } else {
        assert ms == [ms[0]] && ms[0] in ms;
        RenderableLeaves(w, ms[0]);
        CanonicalOfOne(w, ms[0]);
        LinesMatch(l, ms[0]);
      }
    }
  }

  lemma RenderableLeaves(v: Value, l: Leaf)
    requires Canonical(v).Some? && l in Leaves([], v)
    ensures Renderable(l)
  {
    hide Leaves, Renderable;
  }

  lemma NoText(v: Value)
    requires Leaves([], v) == []
    ensures Canonical(v) == Some([])
  {
    hide Leaves, Renderable;
    NoLeaves();
  }

  lemma OneNewline(line: string)
    requires IsLine(line)
    ensures Newlines(line) == 1
  {
    assert line == line[..|line| - 1] + "\n";
    NewlinesAppend(line[..|line| - 1], "\n");
    NoNewlines(line[..|line| - 1]);
  }

  /** With newlines allowed in the other file's keys, every file of two leaves or more has a twin; a
      newline-free file has one exactly then. */
  lemma TwinsExactly(v: Value)
    requires Canonical(v).Some?
    ensures |Leaves([], v)| >= 2 ==> exists w :: IsTwin(v, w)
    ensures PathsAreLines(v) ==> ((exists w :: IsTwin(v, w)) <==> |Leaves([], v)| >= 2)
  {
    hide Leaves, Canonical, IsFile, PathsAreLines;
    if |Leaves([], v)| >= 2 {
      var w := MergedFile(v);
    } else if PathsAreLines(v) {
      forall w ensures !IsTwin(v, w) {
        if Canonical(w) == Canonical(v) {
          LoneLeaf(v, w);
        }
      }
    }
  }
}

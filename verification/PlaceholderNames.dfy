/** Exactly which names keep token-by-token replacement one simultaneous substitution. */
module PlaceholderNames {
  import opened Placeholders
  import opened Wire

  /** Every token closes and belongs to the vocabulary. */
  predicate AllKnown(raw: string) {
    forall t | t in Tokens(raw) :: t.inner.Some? && Parse(t.inner.value).Some?
  }

  /** Replacing token by token is one simultaneous substitution, and is not refused. */
  predicate Simultaneous(raw: string, vals: Values) {
    && (forall t | t in Tokens(raw) :: t.text != [])
    && var out := InTurn(raw, Tokens(raw), vals);
       out == Render(raw, Inners(Tokens(raw)), vals) && Find(out, "{{") == None
  }

  // ----- values longer than any token

  function Filler(n: nat): string { seq(n, _ => 'z') }

  function KnobNames(ts: seq<Token>): set<string> {
    set t | t in ts && t.inner.Some? && Parse(t.inner.value).Some? && Parse(t.inner.value).value.Knob? ::
      Parse(t.inner.value).value.name
  }

  function ContainerNames(ts: seq<Token>): set<string> {
    set t | t in ts && t.inner.Some? && Parse(t.inner.value).Some? && Parse(t.inner.value).value.Container? ::
      Parse(t.inner.value).value.name
  }

  /** Every token of the vocabulary stands for the same text. */
  function AllTo(ts: seq<Token>, v: string): Values {
    Values(v, v, v, v, v, v, v, map k | k in KnobNames(ts) :: KnobValue.Text(v), map c | c in ContainerNames(ts) :: v)
  }

  predicate AllAre(raw: string, vals: Values, v: string) {
    forall t | t in Tokens(raw) :: t.inner.Some? && Resolve(t.inner.value, vals) == Some(v)
  }

  lemma AllToResolves(raw: string, v: string)
    requires AllKnown(raw)
    ensures AllAre(raw, AllTo(Tokens(raw), v), v)
  {
    hide Parse, Tokens;
    forall t | t in Tokens(raw) ensures t.inner.Some? && Resolve(t.inner.value, AllTo(Tokens(raw), v)) == Some(v) {
      var p := Parse(t.inner.value).value;
      assert p.Knob? ==> p.name in KnobNames(Tokens(raw));
      assert p.Container? ==> p.name in ContainerNames(Tokens(raw));
    }
  }

  lemma FillerIsApart(n: nat)
    ensures Single(Filler(n)) && Apart(Filler(n))
  {
    SingleIsExact(Filler(n));
  }

  lemma AllAreGuarded(raw: string, vals: Values, n: nat)
    requires AllAre(raw, vals, Filler(n))
    ensures Guarded(raw, vals)
  {
    hide Tokens, Resolve, Apart, Guarded;
    FillerIsApart(n);
    ApartIsGuarded(raw, vals);
  }

  lemma {:induction false} TextFits(raw: string, t: Token)
    requires t in Tokens(raw)
    ensures |t.text| <= |raw|
    decreases |raw|
  {
    hide Find;
    if ScanOne(raw).Closed? && t in Tokens(ScanOne(raw).rest) {
      TextFits(ScanOne(raw).rest, t);
    }
  }

  // ----- a token that holds the one whose turn it is

  /** What stands before the held token. */
  function Head(b: string, a: string): string
    requires Buries(b, a)
  {
    b[..|b| - |a| - 2]
  }

  lemma {:induction false} ReplacedBehind(a: string, y: string, x: string, v: string)
    requires Closes(y + "{{" + a)
    ensures var pat := "{{" + a + "}}"; Replace(y + pat + x, pat, v) == y + v + Replace(x, pat, v)
    decreases |y|
  {
    hide Closes, Replace;
    var pat, s := "{{" + a + "}}", y + ("{{" + a + "}}") + x;
    if y == [] {
      assert y + "{{" + a == "{{" + a && s == pat + x;
      ReplaceFirst(pat, x, v);
      assert y + v == v;
    } else {
      var t := y + "{{" + a;
      assert t[1..] == y[1..] + "{{" + a;
      ClosesLater(t);
      AllClose(y, a);
      if pat <= s {
        assert s == t + "}}" + x;
        SameText("{{" + a, t, x);
      }
      ReplaceStep(s, pat, v);
      assert s[1..] == y[1..] + pat + x && s[0] == y[0];
      ReplacedBehind(a, y[1..], x, v);
      assert [y[0]] + (y[1..] + v + Replace(x, pat, v)) == y + v + Replace(x, pat, v);
    }
  }

  /** What follows a text that closes at its end closes there too. */
  lemma {:induction false} AllClose(y: string, a: string)
    requires Closes(y + "{{" + a)
    ensures Closes("{{" + a)
    decreases |y|
  {
    hide Closes;
    var t := y + "{{" + a;
    if y == [] {
      assert t == "{{" + a;
    } else {
      ClosesLater(t);
      assert t[1..] == y[1..] + "{{" + a;
      AllClose(y[1..], a);
    }
  }

  lemma BuriedTurn(a: string, b: string, x: string, v: string)
    requires IsName(b) && Buries(b, a)
    ensures var pat := "{{" + a + "}}";
      Replace("{{" + b + "}}" + x, pat, v) == "{{" + Head(b, a) + v + Replace(x, pat, v)
  {
    hide Closes, Replace;
    var p := Head(b, a);
    var y, pat := "{{" + p, "{{" + a + "}}";
    assert b == p + ("{{" + a);
    assert "{{" + b == y + "{{" + a;
    OpenedCloses(b);
    ReplacedBehind(a, y, x, v);
    assert "{{" + b + "}}" + x == y + pat + x;
  }

  /** What that turn makes of a token: its own value, a broken text, or what it was. */
  function Turned(inner: string, done: set<string>, a: string, vals: Values, v: string): string {
    if inner !in done && Buries(inner, a) then "{{" + Head(inner, a) + v else Written(inner, done + {a}, vals)
  }

  lemma TokenTurned(inner: string, done: set<string>, vals: Values, a: string, x: string, v: string)
    requires IsName(inner) && IsName(a) && Resolve(a, vals) == Some(v) && Resolve(inner, vals) == Some(v)
    requires Single(v) && !EndsOpen(v)
    ensures Replace(Written(inner, done, vals) + x, "{{" + a + "}}", v)
         == Turned(inner, done, a, vals, v) + Replace(x, "{{" + a + "}}", v)
  {
    hide Resolve, IsName, Single, Replace, Buries, Head;
    if inner !in done && Buries(inner, a) {
      BuriedTurn(a, inner, x, v);
    } else {
      WrittenTurn(inner, done, vals, a, x);
    }
  }

  /** The turn leaves a broken text behind. */
  lemma {:induction false} TurnBreaks(raw: string, done: set<string>, vals: Values, a: string, b: string, v: string)
      returns (l: string, r: string)
    requires AllAre(raw, vals, v) && Single(v) && !EndsOpen(v) && Guarded(raw, vals)
    requires IsName(a) && Resolve(a, vals) == Some(v)
    requires b in Inners(Tokens(raw)) && b !in done && Buries(b, a)
    ensures Replace(Render(raw, done, vals), "{{" + a + "}}", v) == l + ("{{" + Head(b, a) + v) + r
    decreases |raw|
  {
    hide Resolve, Replace, Inert, Written, ScanOne, Find, Single, IsName, EndsOpen, LeadsOpen, Leads, Buries, Head;
    var pat := "{{" + a + "}}";
    assert ScanOne(raw).Closed? by {
      SomeToken(raw, b);
    }
    var before, inner, rest := ScanOne(raw).before, ScanOne(raw).inner, ScanOne(raw).rest;
    var w, x := Written(inner, done, vals), Render(rest, done, vals);
    ScanPieces(raw);
    ScanTokens(raw);
    TokensOfClosed(raw);
    assert Render(raw, done, vals) == before + (w + x);
    SkipBefore(before, w + x, pat, v);
    ResolvedIsName(inner, vals);
    TokenTurned(inner, done, vals, a, x, v);
    var t := Turned(inner, done, a, vals, v);
    if inner == b {
      l, r := before, Replace(x, pat, v);
    } else {
      InnerOfRest(raw, b);
      var l', r' := TurnBreaks(rest, done, vals, a, b, v);
      l, r := before + t + l', r';
      var m := "{{" + Head(b, a) + v;
      assert before + (t + (l' + m + r')) == l + m + r;
    }
  }

  lemma SomeToken(raw: string, b: string)
    requires b in Inners(Tokens(raw))
    ensures ScanOne(raw).Closed?
  {
    hide ScanOne;
  }

  lemma InnerOfRest(raw: string, b: string)
    requires ScanOne(raw).Closed? && b in Inners(Tokens(raw)) && b != ScanOne(raw).inner
    ensures b in Inners(Tokens(ScanOne(raw).rest))
  {
    hide ScanOne;
    var t :| t in Tokens(raw) && t.inner == Some(b);
    assert t in Tokens(ScanOne(raw).rest);
  }

  // ----- a broken text stays

  /** It opens, never closes, and past its head no brace opens. */
  predicate IsBroken(w: string, n: nat) {
    && |w| >= n + 2 && "{{" <= w
    && (forall k | 0 <= k < |w| - 1 :: !(w[k] == '}' && w[k + 1] == '}'))
    && forall k | 0 <= k < |w| && |w| - k < n :: w[k] != '{'
  }

  predicate IsPattern(pat: string) { "{{" <= pat && |pat| >= 4 && pat[|pat| - 2..] == "}}" }

  /** A pattern does not end within a text that never closes. */
  lemma EndsNotWithin(l: string, y: string, r: string, pat: string)
    requires IsPattern(pat) && |l| < |pat| <= |l| + |y| && (l != [] ==> y[0] != '}')
    requires forall k | 0 <= k < |y| - 1 :: !(y[k] == '}' && y[k + 1] == '}')
    ensures !(pat <= l + y + r)
  {
    var s, m := l + y + r, |pat| - 1 - |l|;
    assert pat[|pat| - 1] == pat[|pat| - 2..][1] == '}' && pat[|pat| - 2] == pat[|pat| - 2..][0] == '}';
    assert s[|pat| - 1] == y[m];
    if m > 0 {
      assert s[|pat| - 2] == y[m - 1] && !(y[m - 1] == '}' && y[m - 1 + 1] == '}');
    }
  }

  lemma {:induction false} BrokenIsPassed(w: string, k: nat, r: string, pat: string, u: string)
    requires IsPattern(pat) && IsBroken(w, |pat|) && k <= |w|
    ensures Replace(w[k..] + r, pat, u) == w[k..] + Replace(r, pat, u)
    decreases |w| - k
  {
    hide Replace;
    var y := w[k..];
    if y == [] {
      assert y + r == r;
    } else {
      if |pat| <= |y| {
        forall i | 0 <= i < |y| - 1 ensures !(y[i] == '}' && y[i + 1] == '}') {
          assert y[i] == w[k + i] && y[i + 1] == w[k + i + 1];
        }
        EndsNotWithin([], y, r, pat);
        assert [] + y + r == y + r;
      } else {
        assert (y + r)[0] == w[k] && pat[0] == '{';
      }
      ReplaceStep(y + r, pat, u);
      assert (y + r)[1..] == w[k + 1..] + r;
      BrokenIsPassed(w, k + 1, r, pat, u);
      assert [y[0]] + (w[k + 1..] + Replace(r, pat, u)) == y + Replace(r, pat, u);
    }
  }

  lemma {:induction false} BrokenStays(l: string, w: string, r: string, pat: string, u: string)
      returns (l': string, r': string)
    requires IsPattern(pat) && IsBroken(w, |pat|)
    ensures Replace(l + w + r, pat, u) == l' + w + r'
    decreases |l|
  {
    hide Replace;
    var s := l + w + r;
    if l == [] {
      assert s == w[0..] + r && w[0..] == w;
      BrokenIsPassed(w, 0, r, pat, u);
      l', r' := [], Replace(r, pat, u);
      assert l' + w + r' == w + r';
    } else if pat <= s {
      if |l| < |pat| {
        EndsNotWithin(l, w, r, pat);
      }
      var l1 := l[|pat|..];
      assert s[|pat|..] == l1 + w + r && s == pat + (l1 + w + r);
      ReplaceFirst(pat, l1 + w + r, u);
      var l2, r2 := BrokenStays(l1, w, r, pat, u);
      l', r' := u + l2, r2;
      assert u + (l2 + w + r2) == l' + w + r';
    } else {
      ReplaceStep(s, pat, u);
      assert s[1..] == l[1..] + w + r && s[0] == l[0];
      var l2, r2 := BrokenStays(l[1..], w, r, pat, u);
      l', r' := [l[0]] + l2, r2;
      assert [l[0]] + (l2 + w + r2) == l' + w + r';
    }
  }

  lemma {:induction false} TurnsStayBroken(l: string, w: string, r: string, ts: seq<Token>, vals: Values, n: nat)
      returns (l': string, r': string)
    requires forall t | t in ts :: t.text != [] && IsPattern(t.text) && |t.text| <= n
    requires IsBroken(w, n)
    ensures InTurn(l + w + r, ts, vals) == l' + w + r'
    decreases |ts|
  {
    hide Replace, Resolve, IsPattern;
    if ts == [] {
      l', r' := l, r;
    } else {
      assert ts[0] in ts && forall t | t in ts[1..] :: t in ts;
      var l1, r1 := l, r;
      if ts[0].inner.Some? && Resolve(ts[0].inner.value, vals).Some? {
        l1, r1 := BrokenStays(l, w, r, ts[0].text, Resolve(ts[0].inner.value, vals).value);
      }
      assert ReplaceToken(l + w + r, ts[0], vals) == l1 + w + r1;
      l', r' := TurnsStayBroken(l1, w, r1, ts[1..], vals, n);
    }
  }

  lemma BrokenText(a: string, b: string, n: nat)
    requires IsName(b) && Buries(b, a)
    ensures IsBroken("{{" + Head(b, a) + Filler(n), n)
  {
    hide Find;
    var p, y := Head(b, a), "{{" + b;
    var w := "{{" + p + Filler(n);
    OpenedCloses(b);
    assert b == p + ("{{" + a);
    forall k | 0 <= k < |w| - 1 ensures !(w[k] == '}' && w[k + 1] == '}') {
      if k + 1 < |p| + 2 {
        FindIsFirst(y + "}}", "}}", k);
        assert (y + "}}")[k..][0] == w[k] && (y + "}}")[k..][1] == w[k + 1];
      } else {
        assert w[k + 1] == 'z';
      }
    }
  }

  lemma HoldsOpening(l: string, w: string, r: string)
    requires "{{" <= w
    ensures Find(l + w + r, "{{").Some?
  {
    hide Find;
    SingleIsExact(l + w + r);
    SingleAppend(l + w, r);
    SingleAppend(l, w);
    NotSingle(w);
  }

  // ----- exactly the names that are apart

  lemma {:induction false} BrokenTurns(raw: string, done: set<string>, ts: seq<Token>, vals: Values, n: nat)
    requires AllAre(raw, vals, Filler(n)) && n >= |raw| && forall t | t in ts :: t in Tokens(raw)
    requires forall t | t in Tokens(raw) && t.inner.Some? :: t in ts || t.inner.value in done
    requires (forall t | t in Tokens(raw) :: t.text != []) && !TurnsApart(ts, done)
    ensures Find(InTurn(Render(raw, done, vals), ts, vals), "{{").Some?
    decreases |ts|
  {
    hide Resolve, Render, Replace, Tokens, IsName, Guarded, Buries, Find, Single, EndsOpen, Head, IsPattern, IsBroken;
    hide Filler;
    var v := Filler(n);
    assert ts[0] in Tokens(raw);
    AllAreGuarded(raw, vals, n);
    FillerIsApart(n);
    TokenIsName(raw, vals, ts[0]);
    var a := ts[0].inner.value;
    if TurnApart(ts, done, a) {
      assert TurnApart(Tokens(raw), done, a);
      TurnRenders(raw, done, vals, a);
      assert forall t | t in ts :: t == ts[0] || t in ts[1..];
      BrokenTurns(raw, done + {a}, ts[1..], vals, n);
    } else {
      var t :| t in ts && t.inner.Some? && t.inner.value !in done && Buries(t.inner.value, a);
      var b := t.inner.value;
      TokenIsName(raw, vals, t);
      assert t in Tokens(raw) && b in Inners(Tokens(raw));
      var l, r := TurnBreaks(raw, done, vals, a, b, v);
      var w := "{{" + Head(b, a) + v;
      BrokenText(a, b, n);
      forall u | u in ts[1..] ensures u.text != [] && IsPattern(u.text) && |u.text| <= n {
        assert u in ts;
        TokenIsName(raw, vals, u);
        TextFits(raw, u);
        TextIsPattern(u.inner.value);
      }
      var l', r' := TurnsStayBroken(l, w, r, ts[1..], vals, n);
      StillOpens(w, n);
      HoldsOpening(l', w, r');
    }
  }

  lemma StillOpens(w: string, n: nat)
    requires IsBroken(w, n)
    ensures "{{" <= w
  {
  }

  lemma TextIsPattern(a: string)
    ensures IsPattern("{{" + a + "}}")
  {
  }

  /** Over the known vocabulary: whatever values the guard admits, replacing token by token is one
      simultaneous substitution, if and only if no token's text holds that of another one whose turn comes
      earlier. */
  lemma NamesAreExact(raw: string)
    requires AllKnown(raw)
    ensures NamesApart(raw) <==> forall vals | Guarded(raw, vals) :: Simultaneous(raw, vals)
  {
    hide Tokens, Guarded, TurnsApart, InTurn, Render, Find, Parse;
    if NamesApart(raw) {
      forall vals | Guarded(raw, vals) ensures Simultaneous(raw, vals) {
        SubstitutionIsSimultaneous(raw, vals);
      }
    } else {
      var n := |raw|;
      var vals := AllTo(Tokens(raw), Filler(n));
      AllToResolves(raw, Filler(n));
      AllAreGuarded(raw, vals, n);
      TokensAreNotEmpty(raw);
      RenderNothing(raw, vals);
      BrokenTurns(raw, {}, Tokens(raw), vals, n);
      assert !Simultaneous(raw, vals);
    }
  }

  /** Names without a double brace are apart. */
  lemma UnnestedIsApart(raw: string)
    requires forall t | t in Tokens(raw) && t.inner.Some? :: Find(t.inner.value, "{{") == None
    ensures NamesApart(raw)
  {
    hide Tokens, Find;
    forall t, a | t in Tokens(raw) && t.inner.Some? ensures !Buries(t.inner.value, a) {
      NothingBuried(t.inner.value, a);
    }
    AllApart(Tokens(raw), {});
  }

  lemma NothingBuried(b: string, a: string)
    requires Find(b, "{{") == None
    ensures !Buries(b, a)
  {
    if |b| >= |a| + 2 {
      FindIsFirst(b, "{{", |b| - |a| - 2);
    }
  }

  lemma {:induction false} AllApart(ts: seq<Token>, done: set<string>)
    requires forall t, a | t in ts && t.inner.Some? :: !Buries(t.inner.value, a)
    ensures TurnsApart(ts, done)
    decreases |ts|
  {
    hide Buries;
    if ts != [] && ts[0].inner.Some? {
      assert forall t | t in ts[1..] :: t in ts;
      AllApart(ts[1..], done + {ts[0].inner.value});
    }
  }
}

/** The splitter's rules by the characters themselves: what a quoted region is, what ends a statement
    and what a comment takes with it. */
module SplitSqlText {
  import opened SplitSql
  import opened Unicode

  /** What may stand between two delimiters: no lone delimiter and no lone backslash. */
  predicate IsBody(x: string, q: char) {
    if x == [] then true
    else if x[0] == '\\' then |x| >= 2 && IsBody(x[2..], q)
    else if x[0] == q then |x| >= 2 && x[1] == q && IsBody(x[2..], q)
    else IsBody(x[1..], q)
  }

  lemma {:induction false} OrdinaryIsBody(x: string, q: char)
    requires q !in x && '\\' !in x
    ensures IsBody(x, q)
  {
    if x != [] {
      OrdinaryIsBody(x[1..], q);
    }
  }

  lemma {:induction false} BodyAppend(x: string, y: string, q: char)
    requires IsBody(x, q) && IsBody(y, q)
    ensures IsBody(x + y, q)
    decreases |x|
  {
    var s := x + y;
    if x == [] {
      assert s == y;
    } else if x[0] == '\\' || x[0] == q {
      BodyAppend(x[2..], y, q);
      assert s[2..] == x[2..] + y;
    } else {
      BodyAppend(x[1..], y, q);
      assert s[1..] == x[1..] + y;
    }
  }

  lemma {:induction false} BodyIsContent(x: string, q: char, b: string)
    requires IsBody(x, q) && q != '\\' && (b == [] || b[0] != q)
    ensures Quoted(x + [q] + b, q) == Content(x + [q]) + Code(b)
    decreases |x|
  {
    hide Code, Content, Quoted;
    var s := x + [q] + b;
    if x == [] {
      assert s == [q] + b && x + [q] == [q];
      QuotedSteps(q, q, b, q);
      ContentOfOne(q, []);
    } else if x[0] == '\\' || x[0] == q {
      BodyIsContent(x[2..], q, b);
      assert s == [x[0]] + ([x[1]] + (x[2..] + [q] + b));
      assert x + [q] == [x[0]] + ([x[1]] + (x[2..] + [q]));
      QuotedSteps(x[0], x[1], x[2..] + [q] + b, q);
      ContentOfOne(x[0], [x[1]] + (x[2..] + [q]));
      ContentOfOne(x[1], x[2..] + [q]);
      Joined(Ch(x[0]), Ch(x[1]), Content(x[2..] + [q]), Code(b));
    } else {
      BodyIsContent(x[1..], q, b);
      assert s == [x[0]] + (x[1..] + [q] + b);
      assert x + [q] == [x[0]] + (x[1..] + [q]);
      QuotedSteps(x[0], q, x[1..] + [q] + b, q);
      ContentOfOne(x[0], x[1..] + [q]);
      AssocLexemes([Ch(x[0])], Content(x[1..] + [q]), Code(b));
    }
  }

  lemma Joined(a: Lexeme, b: Lexeme, c: seq<Lexeme>, d: seq<Lexeme>)
    ensures [a, b] + (c + d) == [a] + ([b] + c) + d
  {
  }

  /** A pair, an ordinary character, and the closing delimiter. */
  lemma QuotedSteps(c: char, d: char, s: string, q: char)
    requires q != '\\'
    ensures c == '\\' || (c == q && d == q) ==> Quoted([c] + ([d] + s), q) == [Ch(c), Ch(d)] + Quoted(s, q)
    ensures c != '\\' && c != q ==> Quoted([c] + s, q) == [Ch(c)] + Quoted(s, q)
    ensures c == q && (s == [] || s[0] != q) ==> Quoted([c] + s, q) == [Ch(c)] + Code(s)
  {
    hide Code;
    assert ([c] + ([d] + s))[2..] == s && ([c] + s)[1..] == s;
  }

  lemma ContentOfOne(c: char, s: string)
    ensures Content([c] + s) == [Ch(c)] + Content(s) && Content([c]) == [Ch(c)] && [c] + s == "" + [c] + s
  {
  }

  lemma QuotesOpen(q: char, s: string)
    requires q in {'\'', '"', '`'}
    ensures Code([q] + s) == [Ch(q)] + Quoted(s, q)
  {
    assert ([q] + s)[1..] == s;
  }

  lemma Untrimmed(s: string)
    requires s != [] && !IsWhite(s[0]) && !IsWhite(s[|s| - 1])
    ensures Trim(s) == s
  {
  }

  lemma QuotesAreInk(q: char)
    requires q in {'\'', '"', '`'}
    ensures !IsWhite(q)
  {
  }

  /** A region delimited by one of the three quotes is one statement, whatever stands in it: semicolons,
      dashes, the other quotes, doubled delimiters and escaped characters. */
  lemma RegionIsOneStatement(q: char, x: string)
    requires q in {'\'', '"', '`'} && IsBody(x, q)
    ensures Statements([q] + x + [q]) == [[q] + x + [q]]
  {
    hide Code, Quoted, IsBody, IsWhite, Trim;
    var s := [q] + x + [q];
    assert s == [q] + (x + [q] + []) && x + [q] + [] == x + [q];
    QuotesOpen(q, x + [q] + []);
    BodyIsContent(x, q, []);
    NothingLexed(AtCode);
    assert Code(s) == Content(s) + [] by {
      assert Content(s) == [Ch(q)] + Content(x + [q]);
    }
    PiecesContinue([], s, []);
    PiecesEnd(s);
    assert [] + s == s;
    KeptOne(s);
    QuotesAreInk(q);
    Untrimmed(s);
  }

  /** Without delimiter and backslash inside; with a doubled delimiter; and with an escaped character. */
  lemma QuotedTexts(q: char, x: string, y: string, c: char)
    requires q in {'\'', '"', '`'} && q !in x && '\\' !in x && q !in y && '\\' !in y
    ensures Statements([q] + x + [q]) == [[q] + x + [q]]
    ensures Statements([q] + (x + [q, q] + y) + [q]) == [[q] + (x + [q, q] + y) + [q]]
    ensures Statements([q] + (x + ['\\', c] + y) + [q]) == [[q] + (x + ['\\', c] + y) + [q]]
  {
    hide Statements;
    OrdinaryIsBody(x, q);
    OrdinaryIsBody(y, q);
    PairsAreBodies(q, c);
    BodyAppend(x, [q, q], q);
    BodyAppend(x + [q, q], y, q);
    BodyAppend(x, ['\\', c], q);
    BodyAppend(x + ['\\', c], y, q);
    RegionIsOneStatement(q, x);
    RegionIsOneStatement(q, x + [q, q] + y);
    RegionIsOneStatement(q, x + ['\\', c] + y);
  }

  lemma PairsAreBodies(q: char, c: char)
    requires q != '\\'
    ensures IsBody([q, q], q) && IsBody(['\\', c], q)
  {
    assert [q, q][2..] == [] && ['\\', c][2..] == [];
  }

  // ----- text that opens nothing

  /** None of the three quotes, no semicolon and no two dashes. */
  predicate IsPlain(s: string) {
    && '\'' !in s && '"' !in s && '`' !in s && ';' !in s
    && forall i | 0 <= i < |s| - 1 :: !(s[i] == '-' && s[i + 1] == '-')
  }

  lemma {:induction false} PlainIsContent(a: string, t: string)
    requires IsPlain(a) && !(a != [] && a[|a| - 1] == '-' && "-" <= t)
    ensures Code(a + t) == Content(a) + Code(t)
    decreases |a|
  {
    var s := a + t;
    if a == [] {
      assert s == t;
    } else {
      assert s[0] == a[0] && a[0] in a && s[1..] == a[1..] + t;
      assert !("--" <= s) by {
        assert |a| > 1 ==> s[1] == a[0 + 1];
      }
      PlainLater(a);
      PlainIsContent(a[1..], t);
      assert Content(a) == [Ch(a[0])] + Content(a[1..]);
    }
  }

  lemma PlainLater(a: string)
    requires a != [] && IsPlain(a)
    ensures IsPlain(a[1..])
  {
    var b := a[1..];
    forall i | 0 <= i < |b| - 1 ensures !(b[i] == '-' && b[i + 1] == '-') {
      assert b[i] == a[i + 1] && b[i + 1] == a[i + 1 + 1];
    }
  }

  /** A semicolon behind plain text ends a statement: no other character opens a region. */
  lemma PlainTextIsCut(a: string, b: string)
    requires IsPlain(a)
    ensures Statements(a + ";" + b) == (if Trim(a) == [] then [] else [Trim(a)]) + Statements(b)
  {
    hide Quoted, Comment, IsWhite, Trim, IsPlain;
    var t := ";" + b;
    assert a + ";" + b == a + t && t[0] == ';' && t[1..] == b;
    PlainIsContent(a, t);
    assert Code(t) == [Cut] + Code(b);
    PiecesContinue([], a, [Cut] + Code(b));
    assert [] + a == a;
    PiecesCut(a, Code(b));
    KeptOne(a);
  }

  lemma {:induction false} CommentPassed(x: string, b: string)
    requires '\n' !in x
    ensures Comment(x + "\n" + b) == Code("\n" + b)
  {
    var s := x + "\n" + b;
    if x == [] {
      assert s == "\n" + b && s[1..] == b && ("\n" + b)[1..] == b;
    } else {
      assert s[0] == x[0] && s[1..] == x[1..] + "\n" + b;
      CommentPassed(x[1..], b);
    }
  }

  /** A comment behind plain text goes up to its newline, which stays. */
  lemma CommentVanishes(a: string, x: string, b: string)
    requires IsPlain(a) && (a != [] ==> a[|a| - 1] != '-') && '\n' !in x
    ensures Statements(a + "--" + x + "\n" + b) == Statements(a + "\n" + b)
  {
    hide Code, Pieces, Kept, IsPlain;
    var t := "-" + (x + "\n" + b);
    assert a + "--" + x + "\n" + b == a + ("-" + t);
    assert a + "\n" + b == a + ("\n" + b);
    PlainIsContent(a, "-" + t);
    PlainIsContent(a, "\n" + b);
    CommentOpens(x + "\n" + b);
    CommentPassed("-" + x, b);
    assert "-" + x + "\n" + b == t;
  }

  lemma CommentOpens(s: string)
    ensures Code("-" + ("-" + s)) == Comment("-" + s)
  {
    assert ("-" + ("-" + s))[1..] == "-" + s;
  }

  // ----- what is trimmed

  lemma {:induction false} StartTrims(gap: string, s: string)
    requires (forall i | 0 <= i < |gap| :: IsWhite(gap[i])) && (s == "" || !IsWhite(s[0]))
    ensures TrimStart(gap + s) == s
    decreases |gap|
  {
    hide IsWhite;
    if gap == "" {
      assert gap + s == s;
    } else {
      assert (gap + s)[1..] == gap[1..] + s;
      StartTrims(gap[1..], s);
    }
  }

  lemma {:induction false} EndTrims(s: string, gap: string)
    requires (forall i | 0 <= i < |gap| :: IsWhite(gap[i])) && s != "" && !IsWhite(s[|s| - 1])
    ensures TrimEnd(s + gap) == s
    decreases |gap|
  {
    hide IsWhite;
    if gap == "" {
      assert s + gap == s;
    } else {
      var n := |gap| - 1;
      assert (s + gap)[..|s| + n] == s + gap[..n];
      EndTrims(s, gap[..n]);
    }
  }

  /** Trimming takes all the whitespace around a text and nothing else. */
  lemma TrimByText(before: string, s: string, after: string)
    requires forall i | 0 <= i < |before| :: IsWhite(before[i])
    requires forall i | 0 <= i < |after| :: IsWhite(after[i])
    requires s != "" && !IsWhite(s[0]) && !IsWhite(s[|s| - 1])
    ensures Trim(before + s + after) == s && Trim(before) == ""
  {
    hide IsWhite;
    assert before + s + after == before + (s + after) && before + "" == before;
    StartTrims(before, s + after);
    EndTrims(s, after);
    StartTrims(before, "");
  }
}

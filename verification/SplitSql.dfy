/** The SQL splitter: comments stripped, statements split at `;`, both only outside quotes. */
module SplitSql {
  import opened Unicode
  import opened Wire

  // ----- a recursive lexer of code, comment and quoted regions

  /** A character of a statement, or the semicolon that ends one. */
  datatype Lexeme = Ch(c: char) | Cut

  predicate IsQuote(c: char) { c == '\'' || c == '"' || c == '`' }

  function Code(s: string): seq<Lexeme>
    decreases |s|
  {
    if s == [] then []
    else if IsQuote(s[0]) then [Ch(s[0])] + Quoted(s[1..], s[0])
    else if "--" <= s then Comment(s[1..])
    else if s[0] == ';' then [Cut] + Code(s[1..])
    else [Ch(s[0])] + Code(s[1..])
  }

  /** A comment runs to the end of its line, and leaves the newline. */
  function Comment(s: string): seq<Lexeme>
    decreases |s|
  {
    if s == [] then []
    else if s[0] == '\n' then [Ch('\n')] + Code(s[1..])
    else Comment(s[1..])
  }

  /** Inside quotes a backslash escapes any character and a doubled quote is a literal one. */
  function Quoted(s: string, q: char): seq<Lexeme>
    decreases |s|
  {
    if s == [] then []
    else if s[0] == '\\' then
      if |s| > 1 then [Ch('\\'), Ch(s[1])] + Quoted(s[2..], q) else [Ch('\\')]
    else if s[0] == q then
      if |s| > 1 && s[1] == q then [Ch(q), Ch(q)] + Quoted(s[2..], q) else [Ch(q)] + Code(s[1..])
    else [Ch(s[0])] + Quoted(s[1..], q)
  }

  // ----- statements

  function TrimStart(s: string): string {
    if s != [] && IsWhite(s[0]) then TrimStart(s[1..]) else s
  }

  function TrimEnd(s: string): string {
    if s != [] && IsWhite(s[|s| - 1]) then TrimEnd(s[..|s| - 1]) else s
  }

  function Trim(s: string): string { TrimEnd(TrimStart(s)) }

  /** The text between cuts, the first piece continuing `buf`. */
  function Pieces(buf: string, ls: seq<Lexeme>): (ps: seq<string>)
    ensures |ps| > 0
    decreases |ls|
  {
    if ls == [] then [buf]
    else if ls[0] == Cut then [buf] + Pieces([], ls[1..])
    else Pieces(buf + [ls[0].c], ls[1..])
  }

  /** Trimmed, and dropped when empty. */
  function Kept(ps: seq<string>): seq<string> {
    if ps == [] then []
    else (if Trim(ps[0]) == [] then [] else [Trim(ps[0])]) + Kept(ps[1..])
  }

  function Statements(sql: string): seq<string> { Kept(Pieces([], Code(sql))) }

  // ----- the character state machine

  function Region(s: string, quote: Option<char>): seq<Lexeme> {
    match quote case None => Code(s) case Some(q) => Quoted(s, q)
  }

  /** Characters, as content. */
  function Content(x: string): (ls: seq<Lexeme>)
    ensures |ls| == |x| && forall i | 0 <= i < |x| :: ls[i] == Ch(x[i])
  {
    seq(|x|, i requires 0 <= i < |x| => Ch(x[i]))
  }

  lemma {:induction false} PiecesContinue(buf: string, x: string, ls: seq<Lexeme>)
    ensures Pieces(buf, Content(x) + ls) == Pieces(buf + x, ls)
    decreases |x|
  {
    if x == [] {
      assert buf + x == buf && Content(x) + ls == ls;
    } else {
      var all := Content(x) + ls;
      assert all[0] == Ch(x[0]) && all[1..] == Content(x[1..]) + ls;
      PiecesContinue(buf + [x[0]], x[1..], ls);
      assert buf + [x[0]] + x[1..] == buf + x;
    }
  }

  lemma PiecesCut(buf: string, ls: seq<Lexeme>)
    ensures Kept(Pieces(buf, [Cut] + ls)) == Kept([buf]) + Kept(Pieces([], ls))
  {
    assert ([Cut] + ls)[1..] == ls;
    KeptAppend([buf], Pieces([], ls));
  }

  lemma {:induction false} KeptAppend(a: seq<string>, b: seq<string>)
    ensures Kept(a + b) == Kept(a) + Kept(b)
  {
    hide Trim;
    if a == [] {
      assert a + b == b;
    } else {
      assert (a + b)[1..] == a[1..] + b;
      KeptAppend(a[1..], b);
    }
  }

  /** What one turn of the machine does with the text left: the characters it pushes, the
      text it leaves, and the quote it leaves open. None pushes a cut. */
  function Turn(s: string, quote: Option<char>): (Option<string>, string, Option<char>)
    requires s != []
  {
    var c := s[0];
    match quote
    case Some(q) =>
      if c == '\\' then
        if |s| > 1 then (Some([c, s[1]]), s[2..], quote) else (Some([c]), [], quote)
      else if c == q then
        if |s| > 1 && s[1] == q then (Some([c, q]), s[2..], quote) else (Some([c]), s[1..], None)
      else (Some([c]), s[1..], quote)
    case None =>
      if IsQuote(c) then (Some([c]), s[1..], Some(c))
      else if c == '-' && |s| > 1 && s[1] == '-' then (Some(CommentText(s[1..]).0), CommentText(s[1..]).1, None)
      else if c == ';' then (None, s[1..], None)
      else (Some([c]), s[1..], None)
  }

  function CommentText(s: string): (string, string) {
    if s == [] then ([], [])
    else if s[0] == '\n' then (['\n'], s[1..])
    else CommentText(s[1..])
  }

  lemma {:induction false} CommentIs(s: string)
    ensures Comment(s) == Content(CommentText(s).0) + Code(CommentText(s).1)
    ensures |CommentText(s).1| <= |s|
  {
    if s != [] && s[0] != '\n' { CommentIs(s[1..]); }
  }

  lemma TurnIs(s: string, quote: Option<char>)
    requires s != []
    ensures var (push, rest, quote') := Turn(s, quote);
      && |rest| < |s|
      && Region(s, quote) == (if push.Some? then Content(push.value) else [Cut]) + Region(rest, quote')
  {
    hide CommentText;
    if quote == None && s[0] == '-' && |s| > 1 && s[1] == '-' { CommentIs(s[1..]); }
  }

  method Split(sql: string) returns (out: seq<string>)
    ensures out == Statements(sql)
  {
    hide Region, Pieces, Kept, Turn;
    out := [];
    var buf, quote, i := "", None, 0;
    assert sql[0..] == sql && Region(sql, None) == Code(sql) by { CodeRegion(sql); }
    while i < |sql|
      invariant 0 <= i <= |sql|
      invariant out + Kept(Pieces(buf, Region(sql[i..], quote))) == Statements(sql)
      decreases |sql| - i
    {
      ghost var buf0 := buf;
      ghost var (push, left, after) := Turn(sql[i..], quote);
      TurnIs(sql[i..], quote);
      if quote.Some? {
        i, buf, quote := QuotedTurn(sql, i, buf, quote.value);
      } else {
        i, buf, quote, out := CodeTurn(sql, i, buf, out);
      }
      if push.Some? {
        PiecesContinue(buf0, push.value, Region(left, after));
      } else {
        PiecesCut(buf0, Region(left, after));
      }
    }
    assert sql[i..] == [];
    LexesNothing(quote);
    PiecesEnd(buf);
    out := Flush(buf, out);
  }

  lemma CodeRegion(s: string)
    ensures Region(s, None) == Code(s)
  {}

  /** One character, or an escaped pair, inside quotes. */
  method QuotedTurn(sql: string, at: nat, buf0: string, q: char) returns (i: nat, buf: string, quote: Option<char>)
    requires at < |sql|
    ensures at < i <= |sql|
    ensures var (push, left, after) := Turn(sql[at..], Some(q));
      push.Some? && buf == buf0 + push.value && left == sql[i..] && after == quote
  {
    ghost var rest := sql[at..];
    var c := sql[at];
    i, buf, quote := at + 1, buf0 + [c], Some(q);
    if c == '\\' {
      if i < |sql| {
        buf := buf + [sql[i]];
        i := i + 1;
      }
    } else if c == q {
      if i < |sql| && sql[i] == q {
        buf := buf + [sql[i]];
        i := i + 1;
      } else {
        quote := None;
      }
    }
    assert rest[i - at..] == sql[i..];
  }

  /** One character of code, a whole comment, or the end of a statement. */
  method CodeTurn(sql: string, at: nat, buf0: string, out0: seq<string>)
    returns (i: nat, buf: string, quote: Option<char>, out: seq<string>)
    requires at < |sql|
    ensures at < i <= |sql|
    ensures var (push, left, after) := Turn(sql[at..], None);
      && left == sql[i..] && after == quote
      && (push.Some? ==> buf == buf0 + push.value && out == out0)
      && (push.None? ==> buf == "" && out == out0 + Kept([buf0]))
  {
    ghost var rest := sql[at..];
    var c := sql[at];
    i, buf, quote, out := at + 1, buf0, None, out0;
    assert rest[1..] == sql[i..];
    if IsQuote(c) {
      quote := Some(c);
      buf := buf + [c];
    } else if c == '-' && i < |sql| && sql[i] == '-' {
      i, buf := SkipComment(sql, i, buf);
    } else if c == ';' {
      out := Flush(buf, out);
      buf := "";
    } else {
      buf := buf + [c];
    }
  }

  lemma LexesNothing(quote: Option<char>)
    ensures Region([], quote) == []
  {}

  lemma PiecesEnd(buf: string)
    ensures Pieces(buf, []) == [buf]
  {}

  /** Past the comment and its newline, which is kept. */
  method SkipComment(sql: string, start: nat, buf0: string) returns (i: nat, buf: string)
    requires start <= |sql|
    ensures start <= i <= |sql| && sql[i..] == CommentText(sql[start..]).1 && buf == buf0 + CommentText(sql[start..]).0
  {
    i, buf := start, buf0;
    while i < |sql|
      invariant start <= i <= |sql| && buf == buf0 && CommentText(sql[i..]) == CommentText(sql[start..])
    {
      var rest := sql[i];
      i := i + 1;
      if rest == '\n' {
        buf := buf + ['\n'];
        return;
      }
    }
  }

  method Flush(buf: string, out0: seq<string>) returns (out: seq<string>)
    ensures out == out0 + Kept([buf])
  {
    var stmt := Trim(buf);
    out := out0;
    if stmt != "" { out := out + [stmt]; }
  }

  // ----- splitting distributes over a semicolon outside quotes and comments

  datatype Start = AtCode | AtComment | AtQuoted(q: char)
  datatype Ending = InCode | InComment | InQuotes

  function Lex(st: Start, s: string): seq<Lexeme> {
    match st case AtCode => Code(s) case AtComment => Comment(s) case AtQuoted(q) => Quoted(s, q)
  }

  /** The region the text ends in. */
  function EndOf(st: Start, s: string): Ending
    decreases |s|
  {
    match st
    case AtCode =>
      if s == [] then InCode
      else if IsQuote(s[0]) then EndOf(AtQuoted(s[0]), s[1..])
      else if "--" <= s then EndOf(AtComment, s[1..])
      else EndOf(AtCode, s[1..])
    case AtComment =>
      if s == [] then InComment
      else if s[0] == '\n' then EndOf(AtCode, s[1..])
      else EndOf(AtComment, s[1..])
    case AtQuoted(q) =>
      if s == [] then InQuotes
      else if s[0] == '\\' then (if |s| > 1 then EndOf(st, s[2..]) else InQuotes)
      else if s[0] == q then (if |s| > 1 && s[1] == q then EndOf(st, s[2..]) else EndOf(AtCode, s[1..]))
      else EndOf(st, s[1..])
  }

  /** One step of the lexer: what it emits, how much it reads, where it goes on. */
  function Step(st: Start, s: string): (seq<Lexeme>, nat, Start)
    requires s != []
    ensures 0 < Step(st, s).1 <= |s|
  {
    match st
    case AtCode =>
      if IsQuote(s[0]) then ([Ch(s[0])], 1, AtQuoted(s[0]))
      else if "--" <= s then ([], 1, AtComment)
      else ([if s[0] == ';' then Cut else Ch(s[0])], 1, AtCode)
    case AtComment =>
      if s[0] == '\n' then ([Ch('\n')], 1, AtCode) else ([], 1, AtComment)
    case AtQuoted(q) =>
      if s[0] == '\\' then (if |s| > 1 then ([Ch(s[0]), Ch(s[1])], 2, st) else ([Ch(s[0])], 1, st))
      else if s[0] == q then (if |s| > 1 && s[1] == q then ([Ch(q), Ch(q)], 2, st) else ([Ch(q)], 1, AtCode))
      else ([Ch(s[0])], 1, st)
  }

  lemma StepIs(st: Start, s: string)
    requires s != []
    ensures var (out, k, st') := Step(st, s);
      Lex(st, s) == out + Lex(st', s[k..]) && EndOf(st, s) == EndOf(st', s[k..])
  {
    if st.AtQuoted? && s[0] == '\\' && |s| == 1 { assert s[1..] == []; }
  }

  predicate WellQuoted(st: Start) { st.AtQuoted? ==> IsQuote(st.q) }

  /** No lookahead reaches past a semicolon. */
  lemma StepStable(st: Start, a: string, t: string)
    requires a != [] && ";" <= t && WellQuoted(st) && !(st.AtQuoted? && a == "\\")
    ensures Step(st, a + t) == Step(st, a) && WellQuoted(Step(st, a).2)
  {
    var s := a + t;
    assert s[0] == a[0];
    assert |s| > 1 && s[1] == if |a| > 1 then a[1] else ';';
  }

  /** What a text leaves behind: the lexemes that are settled, the region it ends in, and a last character
      that means one thing or another by what follows it. */
  datatype Left = Left(out: seq<Lexeme>, at: Start, pending: string)

  /** A dash outside quotes may open a comment; inside them a backslash escapes what follows, and a closing
      quote may be the first of two. */
  predicate IsPending(st: Start, s: string) {
    match st
    case AtCode => s == "-"
    case AtComment => false
    case AtQuoted(q) => s == "\\" || s == [q]
  }

  function LeftBy(st: Start, s: string): (l: Left)
    ensures l.pending != [] ==> IsPending(l.at, l.pending)
    decreases |s|
  {
    if s == [] || IsPending(st, s) then Left([], st, s)
    else
      var (out, k, st') := Step(st, s);
      var rest := LeftBy(st', s[k..]);
      Left(out + rest.out, rest.at, rest.pending)
  }

  lemma StepSettled(st: Start, a: string, t: string)
    requires a != [] && !IsPending(st, a)
    ensures Step(st, a + t) == Step(st, a)
  {
    var s := a + t;
    assert s[0] == a[0];
    assert |a| > 1 ==> s[1] == a[1];
  }

  /** Any text behind a prefix is lexed from the region the prefix ends in, behind its pending character. */
  lemma {:induction false} LexAppend(st: Start, a: string, t: string)
    ensures var left := LeftBy(st, a); Lex(st, a + t) == left.out + Lex(left.at, left.pending + t)
    decreases |a|
  {
    hide Lex, Step, IsPending;
    if a == [] || IsPending(st, a) {
      assert LeftBy(st, a) == Left([], st, a);
      NothingBefore(Lex(st, a + t));
    } else {
      var (out, k, st') := Step(st, a);
      StepSettled(st, a, t);
      StepIs(st, a + t);
      assert (a + t)[k..] == a[k..] + t;
      LexAppend(st', a[k..], t);
      var rest := LeftBy(st', a[k..]);
      AssocLexemes(out, rest.out, Lex(rest.at, rest.pending + t));
    }
  }

  lemma NothingBefore(ls: seq<Lexeme>)
    ensures [] + ls == ls
  {
  }

  lemma AssocLexemes(a: seq<Lexeme>, b: seq<Lexeme>, c: seq<Lexeme>)
    ensures a + (b + c) == a + b + c
  {
  }

  /** Text that starts with a semicolon is lexed from the region the text before it ends
      in; inside a comment it disappears up to its newline, inside quotes it is content. */
  lemma {:induction false} LexSemicolon(st: Start, a: string, t: string)
    requires ";" <= t && WellQuoted(st)
    ensures EndOf(st, a) == InCode ==> Lex(st, a + t) == Lex(st, a) + Code(t)
    ensures EndOf(st, a) == InComment && t == ";x" ==> Lex(st, a + t) == Lex(st, a)
    ensures EndOf(st, a) == InQuotes && t == ";x" ==> Lex(st, a + t) == Lex(st, a) + Content(t)
    decreases |a|
  {
    hide EndOf, Lex, Step, Code, Content;
    if a == [] || (st.AtQuoted? && a == "\\") {
      LexSemicolonBase(st, a, t);
    } else {
      var (out, k, st') := Step(st, a);
      StepStable(st, a, t);
      StepIs(st, a);
      StepIs(st, a + t);
      assert (a + t)[k..] == a[k..] + t;
      LexSemicolon(st', a[k..], t);
    }
  }

  lemma LexSemicolonBase(st: Start, a: string, t: string)
    requires ";" <= t && WellQuoted(st) && (a == [] || (st.AtQuoted? && a == "\\"))
    ensures EndOf(st, a) == InCode ==> Lex(st, a + t) == Lex(st, a) + Code(t)
    ensures EndOf(st, a) == InComment && t == ";x" ==> Lex(st, a + t) == Lex(st, a)
    ensures EndOf(st, a) == InQuotes && t == ";x" ==> Lex(st, a + t) == Lex(st, a) + Content(t)
  {
    hide Code, Comment;
    if a == [] {
      assert a + t == t;
      NothingLexed(st);
      SwallowsOrKeeps(st);
    } else {
      EscapedSemicolon(st.q);
      if t == ";x" { assert a + t == "\\;x"; }
    }
  }

  lemma NothingLexed(st: Start)
    ensures Lex(st, []) == []
  {}

  lemma SwallowsOrKeeps(st: Start)
    requires st.AtQuoted? ==> IsQuote(st.q)
    ensures Comment(";x") == [] && (st.AtQuoted? ==> Quoted(";x", st.q) == Content(";x"))
  {
    assert ";x"[1..] == "x" && "x"[1..] == "";
    assert Comment(";x") == Comment("x") == Comment("");
    if st.AtQuoted? { assert Quoted(";x", st.q) == [Ch(';')] + ([Ch('x')] + Quoted("", st.q)); }
  }

  lemma EscapedSemicolon(q: char)
    requires IsQuote(q)
    ensures Quoted("\\;x", q) == [Ch('\\')] + Content(";x")
  {
    assert "\\;x"[2..] == "x" && "x"[1..] == "";
    assert Quoted("x", q) == [Ch('x')] + Quoted("", q);
  }

  /** Splitting distributes over `;` exactly behind text that ends outside quotes and
      comments. */
  lemma DistributesExactly(a: string)
    ensures (forall b :: Statements(a + ";" + b) == Statements(a) + Statements(b)) <==> EndOf(AtCode, a) == InCode
  {
    hide Statements, EndOf;
    if EndOf(AtCode, a) == InCode {
      forall b ensures Statements(a + ";" + b) == Statements(a) + Statements(b) {
        Distributes(a, b);
      }
    } else {
      DoesNotDistribute(a);
    }
  }

  lemma Distributes(a: string, b: string)
    requires EndOf(AtCode, a) == InCode
    ensures Statements(a + ";" + b) == Statements(a) + Statements(b)
  {
    hide EndOf, Kept, Pieces;
    var t := ";" + b;
    assert a + ";" + b == a + t;
    LexSemicolon(AtCode, a, t);
    assert t[1..] == b && Code(t) == [Cut] + Code(b);
    SplitAtCut([], Code(a), Code(b));
  }

  lemma {:induction false} SplitAtCut(buf: string, l: seq<Lexeme>, r: seq<Lexeme>)
    ensures Kept(Pieces(buf, l + ([Cut] + r))) == Kept(Pieces(buf, l)) + Kept(Pieces([], r))
    decreases |l|
  {
    hide Kept;
    if l == [] {
      assert l + ([Cut] + r) == [Cut] + r;
      PiecesCut(buf, r);
    } else {
      var rest := l[1..] + ([Cut] + r);
      assert (l + ([Cut] + r))[1..] == rest;
      if l[0] == Cut {
        SplitAtCut([], l[1..], r);
        KeptAppend([buf], Pieces([], rest));
        KeptAppend([buf], Pieces([], l[1..]));
      } else {
        SplitAtCut(buf + [l[0].c], l[1..], r);
      }
    }
  }

  lemma DoesNotDistribute(a: string)
    requires EndOf(AtCode, a) != InCode
    ensures Statements(a + ";" + "x") != Statements(a) + Statements("x")
  {
    hide EndOf, Pieces, Kept, Quoted, Comment;
    assert a + ";" + "x" == a + ";x";
    LexSemicolon(AtCode, a, ";x");
    StatementX();
    if EndOf(AtCode, a) == InQuotes { GrownLast(Code(a)); }
  }

  lemma StatementX()
    ensures Statements("x") == ["x"]
  {
    hide IsWhite;
    assert Code("x") == [Ch('x')] + Code("x"[1..]) && "x"[1..] == "";
    assert [] + ['x'] == "x";
    assert Pieces([], [Ch('x')]) == Pieces("x", []) == ["x"];
    NotWhite();
    assert Trim("x") == "x";
  }

  lemma NotWhite()
    ensures !IsWhite('x') && !IsWhite(';')
  {
  }

  /** Content appended to the last piece shows in the last statement. */
  lemma GrownLast(l: seq<Lexeme>)
    ensures var k := Kept(Pieces([], l + Content(";x"))); k != [] && ';' in k[|k| - 1]
  {
    hide Kept, Pieces, Trim;
    LastGrows([], l);
    var ps := Pieces([], l);
    var init, last := ps[..|ps| - 1], ps[|ps| - 1] + ";x";
    KeptAppend(init, [last]);
    TrimKeepsSemicolon(ps[|ps| - 1]);
    assert Kept([last]) == [Trim(last)] by { KeptOne(last); }
  }

  lemma KeptOne(p: string)
    ensures Kept([p]) == if Trim(p) == [] then [] else [Trim(p)]
  {}

  lemma {:induction false} LastGrows(buf: string, l: seq<Lexeme>)
    ensures var ps := Pieces(buf, l); Pieces(buf, l + Content(";x")) == ps[..|ps| - 1] + [ps[|ps| - 1] + ";x"]
    decreases |l|
  {
    if l == [] {
      PiecesContinue(buf, ";x", []);
      assert l + Content(";x") == Content(";x") + [];
    } else {
      assert (l + Content(";x"))[1..] == l[1..] + Content(";x");
      LastGrows(if l[0] == Cut then [] else buf + [l[0].c], l[1..]);
    }
  }

  lemma {:induction false} TrimStartBefore(p: string)
    ensures TrimStart(p + ";x") == TrimStart(p) + ";x"
  {
    hide IsWhite;
    if p == [] {
      assert p + ";x" == ";x";
      NotWhite();
    } else {
      assert (p + ";x")[1..] == p[1..] + ";x";
      if IsWhite(p[0]) { TrimStartBefore(p[1..]); }
    }
  }

  lemma TrimKeepsSemicolon(p: string)
    ensures ';' in Trim(p + ";x")
  {
    hide IsWhite;
    NotWhite();
    TrimStartBefore(p);
    var s := TrimStart(p) + ";x";
    assert s[|s| - 1] == 'x' && s[|s| - 2] == ';';
    assert TrimEnd(s) == s;
  }

  // ----- every statement is a fixed point

  /** The characters up to the first cut. */
  function Head(ls: seq<Lexeme>): string {
    if ls == [] || ls[0] == Cut then [] else [ls[0].c] + Head(ls[1..])
  }

  lemma {:induction false} HeadContent(x: string, ls: seq<Lexeme>)
    ensures Head(Content(x) + ls) == x + Head(ls)
    decreases |x|
  {
    if x == [] {
      assert Content(x) + ls == ls;
    } else {
      var all := Content(x) + ls;
      assert all[1..] == Content(x[1..]) + ls;
      HeadContent(x[1..], ls);
    }
  }

  /** The first character of a piece is the text's, or the newline a comment left. */
  lemma {:induction false} HeadFirst(st: Start, s: string)
    requires !st.AtQuoted?
    ensures var h := Head(Lex(st, s));
            h == [] || h[0] == '\n' || (st.AtCode? && s != [] && h[0] == s[0] && !("--" <= s))
    decreases |s|
  {
    if s != [] && st.AtCode? && !IsQuote(s[0]) && "--" <= s { HeadFirst(AtComment, s[1..]); }
    if s != [] && st.AtComment? && s[0] != '\n' { HeadFirst(AtComment, s[1..]); }
  }

  /** Lexed again, the characters of a piece are all content, comments being gone. */
  lemma {:induction false} HeadRelexes(st: Start, s: string)
    requires WellQuoted(st)
    ensures var h := Head(Lex(st, s)); Lex(if st.AtComment? then AtCode else st, h) == Content(h)
    decreases |s|
  {
    hide Head;
    if s == [] || Step(st, s).0 == [Cut] {
      NoHead(st, s);
    } else {
      var (out, k, st') := Step(st, s);
      var h, h' := Head(Lex(st, s)), Head(Lex(st', s[k..]));
      StepIs(st, s);
      StepHead(st, s);
      HeadRelexes(st', s[k..]);
      if !st'.AtQuoted? { HeadFirst(st', s[k..]); }
      if s[k..] == [] { NoHead(st', s[k..]); }
      RelexStep(st, s, h');
    }
  }

  lemma NoHead(st: Start, s: string)
    requires s == [] || Step(st, s).0 == [Cut]
    ensures Head(Lex(st, s)) == []
  {}

  /** The characters a step emits. */
  function Emitted(st: Start, s: string): string
    requires s != [] && Step(st, s).0 != [Cut]
    ensures Content(Emitted(st, s)) == Step(st, s).0
  {
    var out := Step(st, s).0;
    seq(|out|, i requires 0 <= i < |out| => out[i].c)
  }

  lemma StepHead(st: Start, s: string)
    requires s != [] && Step(st, s).0 != [Cut]
    ensures Head(Lex(st, s)) == Emitted(st, s) + Head(Lex(Step(st, s).2, s[Step(st, s).1..]))
  {
    hide Head, Lex, Step;
    StepIs(st, s);
    HeadContent(Emitted(st, s), Lex(Step(st, s).2, s[Step(st, s).1..]));
  }

  function Again(st: Start): Start { if st.AtComment? then AtCode else st }

  /** Behind the characters a step emits, the relexed piece goes on where the step did. */
  lemma RelexStep(st: Start, s: string, h: string)
    requires WellQuoted(st) && s != [] && Step(st, s).0 != [Cut]
    requires Lex(Again(Step(st, s).2), h) == Content(h)
    requires !Step(st, s).2.AtQuoted? ==>
      var rest := s[Step(st, s).1..];
      h == [] || h[0] == '\n' || (Step(st, s).2.AtCode? && rest != [] && h[0] == rest[0] && !("--" <= rest))
    requires st.AtQuoted? && s == "\\" ==> h == []
    ensures Lex(Again(st), Emitted(st, s) + h) == Content(Emitted(st, s) + h)
  {
    hide Code, Comment, Quoted, Step, Lex, Content, Again, Emitted;
    var x := Emitted(st, s);
    if x == [] {
      assert x + h == h;
      EmitsNothing(st, s);
    } else {
      RelexEmitted(st, s, h);
      StepIs(Again(st), x + h);
      ContentOfBoth(x, h);
    }
  }

  lemma ContentOfBoth(x: string, h: string)
    ensures Content(x + h) == Content(x) + Content(h)
  {
  }

  lemma EmitsNothing(st: Start, s: string)
    requires s != [] && Step(st, s).0 != [Cut] && Emitted(st, s) == []
    ensures Again(st) == Again(Step(st, s).2) == AtCode
  {
    assert Step(st, s).0 == [];
  }

  lemma RelexEmitted(st: Start, s: string, h: string)
    requires WellQuoted(st) && s != [] && Step(st, s).0 != [Cut] && Emitted(st, s) != []
    requires !Step(st, s).2.AtQuoted? ==>
      var rest := s[Step(st, s).1..];
      h == [] || h[0] == '\n' || (Step(st, s).2.AtCode? && rest != [] && h[0] == rest[0] && !("--" <= rest))
    requires st.AtQuoted? && s == "\\" ==> h == []
    ensures var x := Emitted(st, s);
      var (out, k, st') := Step(Again(st), x + h);
      out == Content(x) && k == |x| && (x + h)[k..] == h && st' == Again(Step(st, s).2)
  {
    var x := Emitted(st, s);
    var y := x + h;
    assert y[0] == x[0];
    if |y| > 1 { assert y[1] == if |x| > 1 then x[1] else h[0]; }
    if s[1..] != [] { assert s[1..][0] == s[1]; }
  }

  /** What is lexed behind the first cut; None when there is none. */
  function Behind(ls: seq<Lexeme>): Option<seq<Lexeme>> {
    if ls == [] then None else if ls[0] == Cut then Some(ls[1..]) else Behind(ls[1..])
  }

  lemma {:induction false} BehindContent(x: string, ls: seq<Lexeme>)
    ensures Behind(Content(x) + ls) == Behind(ls)
    decreases |x|
  {
    if x == [] {
      assert Content(x) + ls == ls;
    } else {
      assert (Content(x) + ls)[1..] == Content(x[1..]) + ls;
      BehindContent(x[1..], ls);
    }
  }

  /** Behind a cut the text is lexed as code again. */
  lemma {:induction false} BehindIsCode(st: Start, s: string) returns (rest: string)
    requires WellQuoted(st)
    ensures Behind(Lex(st, s)).Some? ==> |rest| < |s| && Behind(Lex(st, s)).value == Code(rest)
    decreases |s|
  {
    hide Behind, Code, Quoted, Comment;
    rest := "";
    if s == [] {
      NothingBehind(st);
    } else if Step(st, s).0 == [Cut] {
      rest := s[1..];
      StepIs(st, s);
      CutBehind(Code(rest));
    } else {
      var (out, k, st') := Step(st, s);
      StepIs(st, s);
      BehindContent(Emitted(st, s), Lex(st', s[k..]));
      rest := BehindIsCode(st', s[k..]);
    }
  }

  lemma NothingBehind(st: Start)
    ensures Behind(Lex(st, [])) == None
  {}

  lemma CutBehind(ls: seq<Lexeme>)
    ensures Behind([Cut] + ls) == Some(ls)
  {
    assert ([Cut] + ls)[1..] == ls;
  }

  lemma {:induction false} PiecesAreHeads(buf: string, ls: seq<Lexeme>)
    ensures Pieces(buf, ls) == [buf + Head(ls)] + (if Behind(ls).Some? then Pieces([], Behind(ls).value) else [])
    decreases |ls|
  {
    if ls == [] {
      assert buf + [] == buf;
    } else if ls[0] != Cut {
      PiecesAreHeads(buf + [ls[0].c], ls[1..]);
      assert buf + [ls[0].c] + Head(ls[1..]) == buf + Head(ls);
    } else {
      assert buf + [] == buf;
    }
  }

  /** Lexed as code, the text is its own characters. */
  predicate Stable(s: string) { Code(s) == Content(s) }

  lemma {:induction false} PiecesAreStable(s: string, p: string)
    requires p in Pieces([], Code(s))
    ensures Stable(p)
    decreases |s|
  {
    hide Code, Pieces, Head, Behind;
    PiecesAreHeads([], Code(s));
    HeadRelexes(AtCode, s);
    assert [] + Head(Code(s)) == Head(Code(s));
    if p != Head(Code(s)) {
      var rest := BehindIsCode(AtCode, s);
      PiecesAreStable(rest, p);
    }
  }

  lemma {:induction false} LexIsNoLonger(st: Start, s: string)
    ensures |Lex(st, s)| <= |s|
    decreases |s|
  {
    hide Code, Comment, Quoted;
    if s == [] {
      NothingLexed(st);
    } else {
      StepIs(st, s);
      LexIsNoLonger(Step(st, s).2, s[Step(st, s).1..]);
    }
  }

  /** Stable text is read one or two characters at a time, none of them a comment's. */
  lemma StableStep(st: Start, s: string)
    requires s != [] && !st.AtComment? && Lex(st, s) == Content(s)
    ensures var (out, k, st') := Step(st, s);
      |out| == k && !st'.AtComment? && out == Content(s[..k]) && Lex(st', s[k..]) == Content(s[k..])
  {
    hide Code, Comment, Quoted, Lex;
    var (out, k, st') := Step(st, s);
    StepIs(st, s);
    LexIsNoLonger(st', s[k..]);
    assert Content(s)[..k] == Content(s[..k]) && Content(s)[k..] == Content(s[k..]);
    assert |out| == k;
    assert (out + Lex(st', s[k..]))[k..] == Lex(st', s[k..]);
  }

  /** Taking away the end of stable text leaves the rest stable. */
  lemma {:induction false} PrefixLexes(st: Start, s: string, n: nat)
    requires WellQuoted(st) && !st.AtComment? && n <= |s| && Lex(st, s) == Content(s)
    ensures Lex(st, s[..n]) == Content(s[..n])
    decreases |s|
  {
    hide Code, Comment, Quoted, Lex, Step;
    var p := s[..n];
    if n == 0 {
      NothingLexed(st);
    } else {
      StableStep(st, s);
      StepIs(st, p);
      var (out, k, st') := Step(st, s);
      StepOfPrefix(st, s, n);
      if k <= n {
        PrefixLexes(st', s[k..], n - k);
        assert p[k..] == s[k..][..n - k] && p == s[..k] + p[k..];
        ContentAppend(s[..k], p[k..]);
      } else {
        assert p[1..] == [] && Lex(Step(st, p).2, []) == [] by { NothingLexed(Step(st, p).2); }
        assert Content(p) == [Ch(s[0])] + [];
      }
    }
  }

  lemma ContentAppend(a: string, b: string)
    ensures Content(a + b) == Content(a) + Content(b)
  {}

  lemma StepOfPrefix(st: Start, s: string, n: nat)
    requires WellQuoted(st) && !st.AtComment? && 0 < n <= |s|
    requires var (out, k, st') := Step(st, s); |out| == k && !st'.AtComment? && out == Content(s[..k])
    ensures WellQuoted(Step(st, s).2)
    ensures Step(st, s).1 <= n ==> Step(st, s[..n]) == Step(st, s)
    ensures Step(st, s).1 > n ==> n == 1 && Step(st, s[..n]).0 == [Ch(s[0])] && Step(st, s[..n]).1 == 1
  {
    var p := s[..n];
    assert p[0] == s[0] && (n > 1 ==> p[1] == s[1]);
  }

  lemma {:induction false} TrimStartStable(s: string)
    requires Stable(s)
    ensures Stable(TrimStart(s))
    ensures TrimStart(s) != [] ==> !IsWhite(TrimStart(s)[0])
  {
    if s != [] && IsWhite(s[0]) {
      assert Code(s) == [Ch(s[0])] + Code(s[1..]);
      assert Content(s)[1..] == Content(s[1..]);
      TrimStartStable(s[1..]);
    }
  }

  lemma {:induction false} TrimEndPrefix(s: string)
    ensures TrimEnd(s) <= s && TrimEnd(TrimEnd(s)) == TrimEnd(s)
  {
    if s != [] && IsWhite(s[|s| - 1]) { TrimEndPrefix(s[..|s| - 1]); }
  }

  lemma TrimStable(s: string)
    requires Stable(s)
    ensures Stable(Trim(s)) && Trim(Trim(s)) == Trim(s)
  {
    hide Code, IsWhite;
    var t := TrimStart(s);
    TrimStartStable(s);
    TrimEndPrefix(t);
    PrefixLexes(AtCode, t, |TrimEnd(t)|);
    assert t[..|TrimEnd(t)|] == TrimEnd(t);
    assert TrimStart(TrimEnd(t)) == TrimEnd(t);
  }

  lemma {:induction false} KeptFrom(ps: seq<string>, t: string) returns (p: string)
    requires t in Kept(ps)
    ensures p in ps && t == Trim(p) && t != []
  {
    hide Trim;
    if t == Trim(ps[0]) && t != [] { p := ps[0]; } else { p := KeptFrom(ps[1..], t); }
  }

  /** Every statement emitted splits into exactly itself. */
  lemma StatementsAreFixedPoints(sql: string, t: string)
    requires t in Statements(sql)
    ensures Statements(t) == [t]
  {
    hide Code, Pieces, Trim, Kept;
    var p := KeptFrom(Pieces([], Code(sql)), t);
    PiecesAreStable(sql, p);
    TrimStable(p);
    assert Content(t) + [] == Content(t) && [] + t == t;
    PiecesContinue([], t, []);
    PiecesEnd(t);
    KeptOne(t);
  }
}

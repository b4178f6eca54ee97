/** Rust source reduced to what the compiler acts on: line comments go, whitespace collapses, and
    a source the quote counter cannot read is refused. */
module Normalise {
  import opened Unicode
  import opened Wire

  type Line = s: string | '\n' !in s

  predicate AllWhite(s: string) { forall i | 0 <= i < |s| :: IsWhite(s[i]) }

  // ----- split_whitespace and join

  /** Where the first whitespace character is, or the length. */
  function WordEnd(s: string): (n: nat)
    ensures n <= |s| && (n < |s| ==> IsWhite(s[n]))
    ensures forall i | 0 <= i < n :: !IsWhite(s[i])
  {
    if s == [] || IsWhite(s[0]) then 0 else 1 + WordEnd(s[1..])
  }

  function Words(s: string): seq<string>
    decreases |s|
  {
    if s == [] then []
    else if IsWhite(s[0]) then Words(s[1..])
    else [s[..WordEnd(s)]] + Words(s[WordEnd(s)..])
  }

  /** Each word after a space. */
  function Spaced(words: seq<string>): string {
    if words == [] then [] else " " + words[0] + Spaced(words[1..])
  }

  function Join(words: seq<string>): string {
    if words == [] then [] else words[0] + Spaced(words[1..])
  }

  /** `collapse_whitespace`. */
  function Collapse(s: string): string { Join(Words(s)) }

  lemma WordEndIs(s: string, n: nat)
    requires n <= |s| && (n < |s| ==> IsWhite(s[n])) && forall i | 0 <= i < n :: !IsWhite(s[i])
    ensures WordEnd(s) == n
  {
  }

  lemma SkipWhite(s: string)
    requires s != [] && IsWhite(s[0])
    ensures Words(s) == Words(s[1..])
  {
  }

  lemma TakeWord(s: string, n: nat)
    requires 0 < n <= |s| && (n < |s| ==> IsWhite(s[n])) && forall i | 0 <= i < n :: !IsWhite(s[i])
    ensures Words(s) == [s[..n]] + Words(s[n..])
  {
    WordEndIs(s, n);
  }

  lemma {:induction false} SkipAllWhite(w: string, b: string)
    requires AllWhite(w)
    ensures Words(w + b) == Words(b)
    decreases |w|
  {
    hide Words, IsWhite;
    if w == [] {
      assert w + b == b;
    } else {
      assert (w + b)[1..] == w[1..] + b;
      SkipWhite(w + b);
      SkipAllWhite(w[1..], b);
    }
  }

  lemma {:induction false} WordsSplit(a: string, w: string, b: string)
    requires w != [] && AllWhite(w)
    ensures Words(a + w + b) == Words(a) + Words(b)
    decreases |a|
  {
    hide Words, IsWhite;
    var s := a + w + b;
    if a == [] {
      assert s == w + b;
      SkipAllWhite(w, b);
      NoWords();
    } else if IsWhite(a[0]) {
      assert s[1..] == a[1..] + w + b;
      SkipWhite(s);
      SkipWhite(a);
      WordsSplit(a[1..], w, b);
    } else {
      var n := WordEnd(a);
      assert n > 0 && s[..n] == a[..n] && s[n..] == a[n..] + w + b;
      TakeWord(s, n);
      TakeWord(a, n);
      WordsSplit(a[n..], w, b);
      assert [a[..n]] + (Words(a[n..]) + Words(b)) == [a[..n]] + Words(a[n..]) + Words(b);
    }
  }

  lemma NoWords()
    ensures Words([]) == []
  {
  }

  // ----- the scanner as a machine over characters

  /** Where the scanner is: in code, in code after a `/` it has not yet decided on, inside a string,
      after a backslash there, in a comment, or past a string that met the end of its line. */
  datatype Mode = Code | Slash | Str | Escape | Comment | Broken

  function Step(m: Mode, c: char): Mode {
    match m
    case Code => if c == '"' then Str else if c == '/' then Slash else Code
    case Slash => if c == '"' then Str else if c == '/' then Comment else Code
    case Str => if c == '"' then Code else if c == '\\' then Escape else if c == '\n' then Broken else Str
    case Escape => if c == '\n' then Broken else Str
    case Comment => if c == '\n' then Code else Comment
    case Broken => Broken
  }

  /** What is kept once `c` has been read in mode `m`. */
  function Emit(m: Mode, c: char): string {
    match m
    case Code => if c == '/' then [] else [c]
    case Slash => if c == '/' then [] else ['/', c]
    case Comment => if c == '\n' then [c] else []
    case _ => [c]
  }

  function After(m: Mode, s: string): Mode
    decreases |s|
  {
    if s == [] then m else After(Step(m, s[0]), s[1..])
  }

  function Kept(m: Mode, s: string): string
    decreases |s|
  {
    if s == [] then [] else Emit(m, s[0]) + Kept(Step(m, s[0]), s[1..])
  }

  function Flush(m: Mode): string { if m == Slash then "/" else [] }

  predicate Accepts(m: Mode) { m == Code || m == Slash || m == Comment }

  predicate NoBlockComment(s: string) { forall i | 0 <= i < |s| - 1 :: s[i] != '/' || s[i + 1] != '*' }

  /** Code and comments told apart by one pass over the characters. */
  function Stripped(src: string): Option<string> {
    if !NoBlockComment(src) || !Accepts(After(Code, src)) then None
    else Some(Kept(Code, src) + Flush(After(Code, src)))
  }

  /** `None` where the normaliser panics. */
  function Normal(src: string): Option<string> {
    match Stripped(src)
    case None => None
    case Some(code) => Some(Collapse(code))
  }

  lemma {:induction false} AfterAppend(m: Mode, a: string, b: string)
    ensures After(m, a + b) == After(After(m, a), b)
    ensures Kept(m, a + b) == Kept(m, a) + Kept(After(m, a), b)
    decreases |a|
  {
    if a == [] {
      assert a + b == b;
    } else {
      assert (a + b)[1..] == a[1..] + b;
      AfterAppend(Step(m, a[0]), a[1..], b);
    }
  }

  /** All that is kept of `s` from mode `m` on. */
  function Out(m: Mode, s: string): string { Kept(m, s) + Flush(After(m, s)) }

  lemma Assoc3(a: string, b: string, c: string)
    ensures (a + b) + c == a + (b + c)
  {
  }

  lemma OutAppend(m: Mode, a: string, b: string)
    ensures Out(m, a + b) == Kept(m, a) + Out(After(m, a), b)
  {
    hide After, Kept, Flush;
    AfterAppend(m, a, b);
    Assoc3(Kept(m, a), Kept(After(m, a), b), Flush(After(m, a + b)));
  }

  lemma OutCons(m: Mode, s: string)
    requires s != []
    ensures Out(m, s) == Emit(m, s[0]) + Out(Step(m, s[0]), s[1..])
  {
    hide Flush;
    var n := Step(m, s[0]);
    Assoc3(Emit(m, s[0]), Kept(n, s[1..]), Flush(After(m, s)));
  }

  lemma {:induction false} BrokenStays(s: string)
    ensures After(Broken, s) == Broken
  {
    if s != [] { BrokenStays(s[1..]); }
  }

  lemma {:induction false} CommentLasts(s: Line)
    ensures After(Comment, s) == Comment && Kept(Comment, s) == []
  {
    if s != [] { CommentLasts(s[1..]); }
  }

  // ----- the normaliser as the build script runs it

  lemma Nothing(m: Mode, line: string)
    ensures After(m, []) == m && Kept(m, []) == [] && line[..0] == []
  {
  }

  lemma TakeOne(m: Mode, s: string, i: nat)
    requires i < |s|
    ensures After(m, s[..i + 1]) == Step(After(m, s[..i]), s[i])
    ensures Kept(m, s[..i + 1]) == Kept(m, s[..i]) + Emit(After(m, s[..i]), s[i])
  {
    assert s[..i + 1] == s[..i] + [s[i]];
    AfterAppend(m, s[..i], [s[i]]);
    assert [s[i]][1..] == [];
  }

  lemma CommentFound(line: Line, i: nat)
    requires i + 1 < |line| && line[i] == '/' && line[i + 1] == '/'
    requires After(Code, line[..i]) == Code
    ensures After(Code, line) == Comment && Kept(Code, line) == Kept(Code, line[..i])
  {
    hide After, Kept;
    TakeOne(Code, line, i);
    TakeOne(Code, line, i + 1);
    assert line == line[..i + 2] + line[i + 2..];
    AfterAppend(Code, line[..i + 2], line[i + 2..]);
    CommentLasts(line[i + 2..]);
  }

  /** The scanner has read `line[..i]` and met no comment. */
  predicate Whole(line: Line, i: nat, inString: bool)
    requires i <= |line|
  {
    && After(Code, line[..i]) == (if inString then Str else if i > 0 && line[i - 1] == '/' then Slash else Code)
    && Kept(Code, line[..i]) + Flush(After(Code, line[..i])) == line[..i]
    && (!inString && 0 < i < |line| && line[i - 1] == '/' ==> line[i] != '/')
  }

  lemma ReadOne(line: Line, i: nat, inString: bool)
    requires i < |line| && Whole(line, i, inString) && !(line[i] == '\\' && inString)
    requires !(line[i] == '/' && !inString && i + 1 < |line| && line[i + 1] == '/')
    ensures Whole(line, i + 1, if line[i] == '"' then !inString else inString)
  {
    hide After, Kept;
    TakeOne(Code, line, i);
    assert line[..i + 1] == line[..i] + [line[i]];
  }

  lemma ReadEscape(line: Line, i: nat)
    requires i < |line| && Whole(line, i, true) && line[i] == '\\'
    ensures if i + 1 < |line| then Whole(line, i + 2, true) else After(Code, line) == Escape
  {
    hide After, Kept;
    TakeOne(Code, line, i);
    assert line[..i + 1] == line[..i] + [line[i]];
    assert After(Code, line[..i + 1]) == Escape && Kept(Code, line[..i + 1]) == line[..i + 1];
    if i + 1 < |line| {
      EscapedOne(line, i + 1);
    } else {
      assert line[..i + 1] == line;
    }
  }

  lemma EscapedOne(line: Line, i: nat)
    requires i < |line| && After(Code, line[..i]) == Escape && Kept(Code, line[..i]) == line[..i]
    ensures Whole(line, i + 1, true)
  {
    hide After, Kept;
    TakeOne(Code, line, i);
    assert line[i] in line;
    assert line[..i + 1] == line[..i] + [line[i]];
  }

  /** `strip_rust_line_comment`. */
  method StripLineComment(line: Line) returns (code: string, balanced: bool)
    ensures balanced == Accepts(After(Code, line))
    ensures balanced ==> code == Kept(Code, line) + Flush(After(Code, line))
  {
    hide After, Kept, Whole;
    var inString := false;
    var i := 0;
    StartsWhole(line);
    while i < |line|
      invariant i <= |line| + 1
      invariant i <= |line| ==> Whole(line, i, inString)
      invariant i == |line| + 1 ==> inString && After(Code, line) == Escape
    {
      if line[i] == '\\' && inString {
        ReadEscape(line, i);
        i := i + 1;
      } else if line[i] == '"' {
        ReadOne(line, i, inString);
        inString := !inString;
      } else if line[i] == '/' && !inString && i + 1 < |line| && line[i + 1] == '/' {
        WholeToComment(line, i);
        return line[..i], true;
      } else {
        ReadOne(line, i, inString);
      }
      i := i + 1;
    }
    if i == |line| {
      WholeLine(line, inString);
    }
    return line, !inString;
  }

  lemma StartsWhole(line: Line)
    ensures Whole(line, 0, false)
  {
    Nothing(Code, line);
  }

  lemma WholeToComment(line: Line, i: nat)
    requires i + 1 < |line| && Whole(line, i, false) && line[i] == '/' && line[i + 1] == '/'
    ensures After(Code, line) == Comment && Kept(Code, line) + Flush(Comment) == line[..i]
  {
    hide After, Kept;
    CommentFound(line, i);
  }

  lemma WholeLine(line: Line, inString: bool)
    requires Whole(line, |line|, inString)
    ensures Accepts(After(Code, line)) == !inString && Kept(Code, line) + Flush(After(Code, line)) == line
  {
    assert line[..|line|] == line;
  }

  /** `str::lines`: the text before each newline without its carriage return, and what follows the
      last newline if anything does. */
  function LineEnd(s: string): (n: nat)
    ensures n <= |s| && (n < |s| ==> s[n] == '\n') && forall i | 0 <= i < n :: s[i] != '\n'
  {
    if s == [] || s[0] == '\n' then 0 else 1 + LineEnd(s[1..])
  }

  function WithoutReturn(line: Line): Line {
    if line != [] && line[|line| - 1] == '\r' then line[..|line| - 1] else line
  }

  function Lines(s: string): (ls: seq<Line>)
    decreases |s|
  {
    if s == [] then []
    else if LineEnd(s) == |s| then [s]
    else [WithoutReturn(s[..LineEnd(s)])] + Lines(s[LineEnd(s) + 1..])
  }

  function CodeOf(line: Line): string { Kept(Code, line) + Flush(After(Code, line)) }

  /** What the loop over lines appends, if no line is refused. */
  function Appended(ls: seq<Line>): Option<string> {
    if ls == [] then Some([]) else
      var init := Appended(ls[..|ls| - 1]);
      var line := ls[|ls| - 1];
      if init.None? || !Accepts(After(Code, line)) then None else Some(init.value + CodeOf(line) + "\n")
  }

  /** `normalise_rust`, `None` where it panics. */
  method NormaliseRust(src: string) returns (r: Option<string>)
    ensures r == Normal(src)
  {
    hide After, Kept, Collapse, Lines;
    LinesStrip(src);
    if !NoBlockComment(src) {
      return None;
    }
    var out := [];
    var lines := Lines(src);
    for k := 0 to |lines|
      invariant Appended(lines[..k]) == Some(out)
    {
      assert lines[..k + 1][..k] == lines[..k];
      var code, balanced := StripLineComment(lines[k]);
      if !balanced {
        RefusedStays(lines, k + 1);
        return None;
      }
      out := out + code + "\n";
    }
    assert lines[..|lines|] == lines;
    return Some(Collapse(out));
  }

  lemma {:induction false} RefusedStays(ls: seq<Line>, k: nat)
    requires k <= |ls| && Appended(ls[..k]).None?
    ensures Appended(ls).None?
    decreases |ls| - k
  {
    if k == |ls| {
      assert ls[..k] == ls;
    } else {
      assert ls[..k + 1][..k] == ls[..k];
      RefusedStays(ls, k + 1);
    }
  }

  // ----- line by line and character by character agree

  lemma {:induction false} AppendedCons(line: Line, ls: seq<Line>)
    ensures Appended([line] + ls) ==
              if !Accepts(After(Code, line)) || Appended(ls).None? then None
              else Some(CodeOf(line) + "\n" + Appended(ls).value)
    decreases |ls|
  {
    hide CodeOf, After;
    var all := [line] + ls;
    if ls == [] {
      assert all[..|all| - 1] == [] && all[|all| - 1] == line;
      assert "" + CodeOf(line) + "\n" == CodeOf(line) + "\n" + "";
    } else {
      var n := |ls| - 1;
      AppendedCons(line, ls[..n]);
      assert all[..n + 1] == [line] + ls[..n] && all[n + 1] == ls[n];
      if Appended(ls[..n]).Some? {
        var x := Appended(ls[..n]).value;
        assert (CodeOf(line) + "\n" + x) + CodeOf(ls[n]) + "\n" == CodeOf(line) + "\n" + (x + CodeOf(ls[n]) + "\n");
      }
    }
  }

  /** A line and its terminator: the scanner is back in code, having kept the line's code and
      whitespace, unless it is refused. */
  lemma LineScans(line: Line)
    ensures var m := After(Code, line + "\n");
            if Accepts(After(Code, line)) then m == Code else m == Broken
    ensures Accepts(After(Code, line)) ==> Kept(Code, line + "\n") == CodeOf(line) + "\n"
  {
    AfterAppend(Code, line, "\n");
    LineStaysWhole(Code, line);
  }

  lemma {:induction false} LineStaysWhole(m: Mode, line: Line)
    requires m != Broken
    ensures After(m, line) != Broken
    decreases |line|
  {
    if line != [] {
      assert line[0] in line;
      LineStaysWhole(Step(m, line[0]), line[1..]);
    }
  }

  lemma ReturnInMode(m: Mode)
    requires m != Broken
    ensures m != Comment && Accepts(m) ==> Step(m, '\r') == Code && Emit(m, '\r') == Flush(m) + "\r"
    ensures Accepts(m) == (Accepts(Step(m, '\r')) && m != Escape)
    ensures m == Escape ==> !Accepts(Step(m, '\r'))
    ensures m == Comment ==> Step(m, '\r') == Comment && Emit(m, '\r') == []
  {
  }

  /** Dropping a carriage return before the newline changes neither the verdict nor a word. */
  lemma ReturnIsWhite(line: Line)
    ensures Accepts(After(Code, line)) <==> Accepts(After(Code, WithoutReturn(line)))
    ensures Accepts(After(Code, line)) ==> Words(CodeOf(line)) == Words(CodeOf(WithoutReturn(line)))
  {
    if line != [] && line[|line| - 1] == '\r' {
      var n := |line| - 1;
      var l := line[..n];
      var m := After(Code, l);
      LineStaysWhole(Code, l);
      TakeOne(Code, line, n);
      assert line[..n + 1] == line;
      ReturnInMode(m);
      if m == Comment {
        assert Kept(Code, line) == Kept(Code, l) + [] == Kept(Code, l);
      } else if Accepts(m) {
        assert Kept(Code, line) + Flush(Code) == Kept(Code, l) + (Emit(m, '\r') + Flush(Code)) == CodeOf(l) + "\r" + [];
        WordsSplit(CodeOf(l), "\r", []);
        NoWords();
      }
    }
  }

  lemma {:induction false} LinesScan(src: string)
    ensures Accepts(After(Code, src)) <==> Appended(Lines(src)).Some?
    ensures Accepts(After(Code, src)) ==>
              Words(Kept(Code, src) + Flush(After(Code, src))) == Words(Appended(Lines(src)).value)
    decreases |src|
  {
    if src == [] {
      AppendedNothing();
    } else if LineEnd(src) == |src| {
      LastLineScans(src);
    } else {
      LinesScan(src[LineEnd(src) + 1..]);
      TerminatedLineScans(src);
    }
  }

  lemma LastLineScans(src: string)
    requires src != [] && LineEnd(src) == |src|
    ensures Accepts(After(Code, src)) <==> Appended(Lines(src)).Some?
    ensures Accepts(After(Code, src)) ==>
              Words(Kept(Code, src) + Flush(After(Code, src))) == Words(Appended(Lines(src)).value)
  {
    hide After, Kept, Words, Appended, Accepts, Flush;
    var only: Line := src;
    AppendedNothing();
    AppendedCons(only, []);
    assert [only] + [] == [only];
    WordsOfLine(only);
  }

  lemma TerminatedLineScans(src: string)
    requires LineEnd(src) < |src|
    requires var rest := src[LineEnd(src) + 1..];
             && (Accepts(After(Code, rest)) <==> Appended(Lines(rest)).Some?)
             && (Accepts(After(Code, rest)) ==>
                   Words(Kept(Code, rest) + Flush(After(Code, rest))) == Words(Appended(Lines(rest)).value))
    ensures Accepts(After(Code, src)) <==> Appended(Lines(src)).Some?
    ensures Accepts(After(Code, src)) ==>
              Words(Kept(Code, src) + Flush(After(Code, src))) == Words(Appended(Lines(src)).value)
  {
    hide After, Kept, Words, Appended, Accepts, CodeOf, WithoutReturn, Flush, IsWhite;
    var n := LineEnd(src);
    var line, rest := src[..n], src[n + 1..];
    AppendedCons(WithoutReturn(line), Lines(rest));
    FirstLineScans(line, rest);
    ReturnIsWhite(line);
    NewlineIsWhite();
    assert src == line + "\n" + rest;
    if Appended(Lines(src)).Some? {
      WordsSplit(CodeOf(line), "\n", Kept(Code, rest) + Flush(After(Code, rest)));
      WordsSplit(CodeOf(WithoutReturn(line)), "\n", Appended(Lines(rest)).value);
    }
  }

  lemma NewlineIsWhite()
    ensures AllWhite("\n")
  {
  }

  lemma AppendedNothing()
    ensures Appended([]) == Some("") && Accepts(After(Code, [])) && Kept(Code, []) + Flush(After(Code, [])) == ""
  {
  }

  lemma WordsOfLine(line: Line)
    ensures Words(CodeOf(line) + "\n" + "") == Words(CodeOf(line))
    ensures CodeOf(line) == Kept(Code, line) + Flush(After(Code, line))
  {
    WordsSplit(CodeOf(line), "\n", "");
    assert CodeOf(line) + "\n" + "" == CodeOf(line) + "\n";
  }

  lemma FirstLineScans(line: Line, rest: string)
    ensures Accepts(After(Code, line + "\n" + rest)) <==> Accepts(After(Code, line)) && Accepts(After(Code, rest))
    ensures Accepts(After(Code, line)) ==>
              Kept(Code, line + "\n" + rest) + Flush(After(Code, line + "\n" + rest))
                == CodeOf(line) + "\n" + (Kept(Code, rest) + Flush(After(Code, rest)))
  {
    hide CodeOf;
    LineScans(line);
    AfterAppend(Code, line + "\n", rest);
    BrokenStays(rest);
  }

  lemma LinesStrip(src: string)
    ensures Normal(src) ==
              if !NoBlockComment(src) || Appended(Lines(src)).None? then None
              else Some(Collapse(Appended(Lines(src)).value))
  {
    hide Kept, After, Words, Lines, Appended;
    LinesScan(src);
  }

  // ----- a fixed point of itself

  lemma NoBlockConcat(x: string, y: string)
    requires NoBlockComment(x) && NoBlockComment(y) && (y != [] ==> y[0] != '*')
    ensures NoBlockComment(x + y)
  {
    var z := x + y;
    forall i | 0 <= i < |z| - 1 ensures z[i] != '/' || z[i + 1] != '*' {
      assert i + 1 < |x| ==> z[i] == x[i] && z[i + 1] == x[i + 1];
      assert i >= |x| ==> z[i] == y[i - |x|] && z[i + 1] == y[i - |x| + 1];
    }
  }

  lemma NoBlockPart(s: string, i: nat, j: nat)
    requires NoBlockComment(s) && i <= j <= |s|
    ensures NoBlockComment(s[i..j])
  {
    var t := s[i..j];
    forall k | 0 <= k < |t| - 1 ensures t[k] != '/' || t[k + 1] != '*' {
      assert t[k] == s[i + k] && t[k + 1] == s[i + k + 1];
    }
  }

  lemma NoBlockOne(c: char, t: string)
    requires NoBlockComment(t) && (c == '/' && t != [] ==> t[0] != '*')
    ensures NoBlockComment([c] + t)
  {
    var z := [c] + t;
    forall i | 0 <= i < |z| - 1 ensures z[i] != '/' || z[i + 1] != '*' {
      assert i > 0 ==> z[i] == t[i - 1];
      assert z[i + 1] == t[i];
    }
  }

  lemma Unfold(m: Mode, s: string)
    requires s != []
    ensures After(m, s) == After(Step(m, s[0]), s[1..]) && Kept(m, s) == Emit(m, s[0]) + Kept(Step(m, s[0]), s[1..])
  {
  }

  /** Stripping comments brings no `/` before a `*`. */
  lemma {:induction false} KeptHasNoBlock(m: Mode, s: string)
    requires NoBlockComment(Flush(m) + s)
    ensures NoBlockComment(Out(m, s))
    ensures (m == Str || m == Escape || m == Broken) && Out(m, s) != [] ==> s != [] && Out(m, s)[0] == s[0]
    decreases |s|
  {
    hide Out, Step, Emit, Flush, NoBlockComment;
    if s == [] {
      OutNothing(m);
      assert Flush(m) + s == Flush(m);
    } else {
      var c, t := s[0], s[1..];
      var n := Step(m, c);
      assert s == [c] + t;
      TailHasNoBlock(m, c, t);
      KeptHasNoBlock(n, t);
      OutCons(m, s);
      OutsideCode(m, c);
      EmitHasNoBlock(m, c, t, Out(n, t));
    }
  }

  lemma OutNothing(m: Mode)
    ensures Out(m, "") == Flush(m) && (m == Str || m == Escape || m == Broken ==> Flush(m) == [])
  {
  }

  lemma TailHasNoBlock(m: Mode, c: char, t: string)
    requires NoBlockComment(Flush(m) + ([c] + t))
    ensures NoBlockComment(Flush(Step(m, c)) + t) && NoBlockComment(t)
    ensures c == '/' && t != [] ==> t[0] != '*'
    ensures m == Slash ==> c != '*'
  {
    hide NoBlockComment;
    var s, all := [c] + t, Flush(m) + ([c] + t);
    assert all[|all| - |s|..|all|] == s;
    NoBlockPart(all, |all| - |s|, |all|);
    assert s[1..|s|] == t;
    NoBlockPart(s, 1, |s|);
    NoBlockHead(c, t);
    if m == Slash {
      assert all == ['/'] + s;
      NoBlockHead('/', s);
    }
    if Step(m, c) != Slash {
      assert Flush(Step(m, c)) + t == t;
    }
  }

  lemma NoBlockHead(c: char, t: string)
    requires NoBlockComment([c] + t)
    ensures c == '/' && t != [] ==> t[0] != '*'
  {
    var s := [c] + t;
    assert s[0] == c && (t != [] ==> s[1] == t[0]);
  }

  lemma OutsideCode(m: Mode, c: char)
    ensures m == Str || m == Escape || m == Broken ==> Emit(m, c) == [c]
    ensures Step(m, c) == Slash ==> c == '/'
  {
  }

  lemma EmitHasNoBlock(m: Mode, c: char, t: string, rest: string)
    requires NoBlockComment(rest)
    requires m == Slash ==> c != '*'
    requires c == '/' && t != [] ==> t[0] != '*'
    requires var n := Step(m, c); (n == Str || n == Escape || n == Broken) && rest != [] ==> t != [] && rest[0] == t[0]
    ensures NoBlockComment(Emit(m, c) + rest)
  {
    if Emit(m, c) == [] {
      assert Emit(m, c) + rest == rest;
    } else {
      NoBlockOne(c, rest);
      if m == Slash {
        NoBlockOne('/', [c] + rest);
        assert Emit(m, c) + rest == ['/'] + ([c] + rest);
      }
    }
  }

  lemma {:induction false} SpacedHasNoBlock(s: string)
    requires NoBlockComment(s)
    ensures NoBlockComment(Spaced(Words(s))) && NoBlockComment(Collapse(s))
    decreases |s|
  {
    hide Words, IsWhite, WordEnd, NoBlockComment;
    if s == [] {
      NoWords();
    } else if IsWhite(s[0]) {
      SkipWhite(s);
      NoBlockPart(s, 1, |s|);
      assert s[1..|s|] == s[1..];
      SpacedHasNoBlock(s[1..]);
    } else {
      var n := WordEnd(s);
      WordEndPositive(s);
      TakeWord(s, n);
      var word, tail := s[..n], s[n..];
      NoBlockPart(s, 0, n);
      NoBlockPart(s, n, |s|);
      assert s[0..n] == word && s[n..|s|] == tail;
      SpacedHasNoBlock(tail);
      var words, spaced := Words(s), Spaced(Words(tail));
      assert words[0] == word && words[1..] == Words(tail);
      SpacedStarts(Words(tail));
      NoBlockConcat(word, spaced);
      NoBlockOne(' ', word + spaced);
      Assoc3(" ", word, spaced);
    }
  }

  lemma SpacedStarts(words: seq<string>)
    ensures Spaced(words) != [] ==> Spaced(words)[0] == ' '
  {
  }

  /** The scanner goes through `s` without meeting a comment or a string that breaks. */
  predicate Passing(m: Mode, s: string)
    decreases |s|
  {
    m != Comment && m != Broken && (s == [] || Passing(Step(m, s[0]), s[1..]))
  }

  lemma {:induction false} PassingKeepsAll(m: Mode, s: string)
    requires Passing(m, s)
    ensures Kept(m, s) + Flush(After(m, s)) == Flush(m) + s
    ensures After(m, s) != Comment && After(m, s) != Broken
    decreases |s|
  {
    if s != [] {
      var n := Step(m, s[0]);
      PassingKeepsAll(n, s[1..]);
      assert Emit(m, s[0]) + Flush(n) == Flush(m) + [s[0]];
      assert Kept(m, s) + Flush(After(m, s)) == Emit(m, s[0]) + (Flush(n) + s[1..]);
      assert s == [s[0]] + s[1..];
    }
  }

  lemma {:induction false} PassingAppend(m: Mode, a: string, b: string)
    ensures Passing(m, a + b) <==> Passing(m, a) && Passing(After(m, a), b)
    decreases |a|
  {
    if a == [] {
      assert a + b == b;
    } else {
      assert (a + b)[1..] == a[1..] + b;
      PassingAppend(Step(m, a[0]), a[1..], b);
    }
  }

  /** What the scanner keeps, it passes through again. */
  lemma {:induction false} KeptPasses(m: Mode, s: string)
    requires Accepts(After(m, s))
    ensures var code, from := Kept(m, s) + Flush(After(m, s)), if m == Slash || m == Comment then Code else m;
            Passing(from, code) && Accepts(After(from, code))
    decreases |s|
  {
    if s == [] {
      assert Kept(m, s) + Flush(After(m, s)) == Flush(m);
    } else {
      BrokenStays(s);
      var c, t, n := s[0], s[1..], Step(m, s[0]);
      KeptPasses(n, t);
      BrokenStays(t);
      var rest := Kept(n, t) + Flush(After(n, t));
      var from := if m == Slash || m == Comment then Code else m;
      assert Kept(m, s) + Flush(After(m, s)) == Emit(m, c) + rest;
      EmitPasses(m, c, rest);
    }
  }

  lemma EmitPasses(m: Mode, c: char, rest: string)
    requires m != Broken && Step(m, c) != Broken
    requires var n := Step(m, c); var from := if n == Slash || n == Comment then Code else n;
             Passing(from, rest) && Accepts(After(from, rest))
    ensures var code, from := Emit(m, c) + rest, if m == Slash || m == Comment then Code else m;
            Passing(from, code) && Accepts(After(from, code))
  {
    var code := Emit(m, c) + rest;
    if Emit(m, c) == [] {
      assert code == rest;
    } else if m == Slash {
      assert code[0] == '/' && code[1..] == [c] + rest && code[1..][1..] == rest;
    } else {
      assert code[0] == c && code[1..] == rest;
    }
  }

  /** A run of whitespace moves the scanner as any other does, newlines in strings apart. */
  lemma {:induction false} WhiteScans(m: Mode, w: string)
    requires w != [] && AllWhite(w) && m != Comment
    requires m == Str || m == Escape ==> '\n' !in w
    ensures After(m, w) == (match m case Slash => Code case Escape => Str case _ => m)
    ensures Kept(m, w) == Flush(m) + w
    decreases |w|
  {
    hide After, Kept, IsWhite;
    var n := Step(m, w[0]);
    Unfold(m, w);
    OneWhiteScans(m, w[0]);
    assert w == [w[0]] + w[1..] && w[0] in w;
    if |w| > 1 {
      WhiteScans(n, w[1..]);
      assert Flush(n) + w[1..] == w[1..];
      Assoc3(Flush(m), [w[0]], w[1..]);
    } else {
      assert w[1..] == [];
      Nothing(n, w);
    }
  }

  lemma OneWhiteScans(m: Mode, c: char)
    requires IsWhite(c) && m != Comment && (m == Str || m == Escape ==> c != '\n')
    ensures Step(m, c) == (match m case Slash => Code case Escape => Str case _ => m)
    ensures Emit(m, c) == Flush(m) + [c]
  {
  }

  lemma PassingWhite(m: Mode, w: string, rest: string)
    requires w != [] && AllWhite(w) && Passing(m, w + rest)
    ensures var n := match m case Slash => Code case Escape => Str case _ => m;
            After(m, w) == n && Passing(n, rest) && Passing(m, " ") && After(m, " ") == n
  {
    PassingAppend(m, w, rest);
    if m == Str || m == Escape {
      NewlineBreaks(m, w);
    }
    WhiteScans(m, w);
  }

  lemma {:induction false} NewlineBreaks(m: Mode, w: string)
    requires AllWhite(w) && (m == Str || m == Escape) && Passing(m, w)
    ensures '\n' !in w
    decreases |w|
  {
    if w != [] {
      NewlineBreaks(Step(m, w[0]), w[1..]);
      assert w == [w[0]] + w[1..];
    }
  }

  function WhiteEnd(s: string): (n: nat)
    ensures n <= |s| && AllWhite(s[..n]) && (n < |s| ==> !IsWhite(s[n]))
  {
    if s == [] || !IsWhite(s[0]) then 0 else
      var n := 1 + WhiteEnd(s[1..]);
      assert s[..n] == [s[0]] + s[1..][..n - 1];
      n
  }

  /** Respacing keeps the scanner passing: from the end of a word on. */
  lemma {:induction false} RespacedPasses(m: Mode, s: string)
    requires Passing(m, s) && Accepts(After(m, s)) && (s == [] || IsWhite(s[0]))
    ensures Passing(m, Spaced(Words(s))) && Accepts(After(m, Spaced(Words(s))))
    decreases |s|
  {
    hide Passing, Words, After, IsWhite;
    if s == [] {
      NoWords();
    } else {
      var k := WhiteEnd(s);
      WhiteEndPositive(s);
      var w, rest := s[..k], s[k..];
      assert s == w + rest;
      PassingWhite(m, w, rest);
      AfterAppend(m, w, rest);
      SkipAllWhite(w, rest);
      if rest == [] {
        NoWords();
        assert s == w;
        AfterNothing(m, w);
      } else {
        var n := WordEnd(rest);
        var word, tail := rest[..n], rest[n..];
        WordEndPositive(rest);
        TakeWord(rest, n);
        assert rest == word + tail;
        var from := After(m, " ");
        PassingAppend(from, word, tail);
        AfterAppend(from, word, tail);
        RespacedPasses(After(from, word), tail);
        WordThenRest(m, word, Spaced(Words(tail)));
        assert Words(rest)[0] == word && Words(rest)[1..] == Words(tail);
      }
    }
  }

  lemma WhiteEndPositive(s: string)
    requires s != [] && IsWhite(s[0])
    ensures WhiteEnd(s) > 0
  {
  }

  lemma WordEndPositive(s: string)
    requires s != [] && !IsWhite(s[0])
    ensures WordEnd(s) > 0
  {
  }

  lemma AfterNothing(m: Mode, w: string)
    requires Passing(m, w) && Accepts(After(m, w + [])) && w != [] && AllWhite(w)
    ensures Passing(m, "") && Accepts(After(m, ""))
  {
    assert w + [] == w;
    PassingAppend(m, w, "");
    PassingWhite(m, w, "");
  }

  lemma WordThenRest(m: Mode, word: string, rest: string)
    requires Passing(m, " ") && Passing(After(m, " "), word) && Passing(After(After(m, " "), word), rest)
    ensures Passing(m, " " + word + rest)
    ensures After(m, " " + word + rest) == After(After(After(m, " "), word), rest)
  {
    PassingAppend(m, " ", word);
    AfterAppend(m, " ", word);
    PassingAppend(m, " " + word, rest);
    AfterAppend(m, " " + word, rest);
  }

  ghost predicate AreWords(words: seq<string>) {
    forall i | 0 <= i < |words| :: words[i] != [] && forall k | 0 <= k < |words[i]| :: !IsWhite(words[i][k])
  }

  lemma {:induction false} WordsAreWords(s: string)
    ensures AreWords(Words(s))
    decreases |s|
  {
    if s != [] {
      if IsWhite(s[0]) {
        WordsAreWords(s[1..]);
      } else {
        WordsAreWords(s[WordEnd(s)..]);
      }
    }
  }

  lemma {:induction false} WordsOfSpaced(words: seq<string>)
    requires AreWords(words)
    ensures Words(Spaced(words)) == words && Words(Join(words)) == words
    decreases |words|
  {
    hide Words, IsWhite;
    if words == [] {
      NoWords();
    } else {
      var word, rest := words[0], words[1..];
      WordsOfSpaced(rest);
      SpaceIsWhite();
      var tail := Spaced(rest);
      assert tail != [] ==> tail[0] == ' ';
      var s := word + tail;
      assert s[..|word|] == word && s[|word|..] == tail;
      TakeWord(s, |word|);
      assert [word] + rest == words;
      assert Spaced(words) == " " + s;
      SkipAllWhite(" ", s);
    }
  }

  lemma SpaceIsWhite()
    ensures AllWhite(" ")
  {
  }

  lemma CollapsePasses(code: string)
    requires Passing(Code, code) && Accepts(After(Code, code))
    ensures Passing(Code, Collapse(code)) && Accepts(After(Code, Collapse(code)))
  {
    hide Words, Passing, After, IsWhite;
    var k := WhiteEnd(code);
    var w, rest := code[..k], code[k..];
    assert code == w + rest;
    SkipAllWhite(w, rest);
    if w != [] {
      PassingWhite(Code, w, rest);
      AfterAppend(Code, w, rest);
    } else {
      Nothing(Code, code);
    }
    if rest == [] {
      NoWords();
      NothingPasses();
    } else {
      var n := WordEnd(rest);
      WordEndPositive(rest);
      TakeWord(rest, n);
      var word, tail := rest[..n], rest[n..];
      assert rest == word + tail;
      AfterWhite(w);
      PassingAppend(Code, word, tail);
      AfterAppend(Code, word, tail);
      RespacedPasses(After(Code, word), tail);
      PassingAppend(Code, word, Spaced(Words(tail)));
      AfterAppend(Code, word, Spaced(Words(tail)));
      assert Words(rest)[0] == word && Words(rest)[1..] == Words(tail);
    }
  }

  lemma NothingPasses()
    ensures Passing(Code, "") && Accepts(After(Code, ""))
  {
  }

  lemma AfterWhite(w: string)
    requires AllWhite(w)
    ensures After(Code, w) == Code
  {
    if w != [] { WhiteScans(Code, w); }
  }

  /** Normalising what has been normalised changes nothing and never panics. */
  lemma FixedPoint(src: string)
    requires Normal(src).Some?
    ensures Normal(Normal(src).value) == Normal(src)
  {
    hide Words, Passing, After, Kept, IsWhite, NoBlockComment, Join;
    var code := Stripped(src).value;
    var out := Collapse(code);
    assert Flush(Code) + src == src;
    KeptHasNoBlock(Code, src);
    SpacedHasNoBlock(code);
    KeptPasses(Code, src);
    CollapsePasses(code);
    PassingKeepsAll(Code, out);
    assert Flush(Code) + out == out;
    WordsAreWords(code);
    WordsOfSpaced(Words(code));
  }

  // ----- edits that are not changes

  lemma NoBlockSplits(a: string, w: string, b: string)
    requires w != [] && AllWhite(w)
    ensures NoBlockComment(a + w + b) <==> NoBlockComment(a) && NoBlockComment(b)
  {
    var s := a + w + b;
    if NoBlockComment(s) {
      NoBlockPart(s, 0, |a|);
      NoBlockPart(s, |a| + |w|, |s|);
      assert s[0..|a|] == a && s[|a| + |w|..|s|] == b;
    }
    if NoBlockComment(a) && NoBlockComment(b) {
      forall i | 0 <= i < |s| - 1 ensures s[i] != '/' || s[i + 1] != '*' {
        assert i + 1 < |a| ==> s[i] == a[i] && s[i + 1] == a[i + 1];
        assert |a| <= i < |a| + |w| ==> IsWhite(s[i]);
        assert |a| <= i + 1 < |a| + |w| ==> IsWhite(s[i + 1]);
        assert i >= |a| + |w| ==> s[i] == b[i - |a| - |w|] && s[i + 1] == b[i + 1 - |a| - |w|];
      }
    }
  }

  /** Where one run of whitespace may stand for another: anywhere outside a comment, newlines
      included where no string is open. */
  predicate MayRespace(m: Mode, w: string) {
    w != [] && AllWhite(w) && m != Comment && (m == Str || m == Escape ==> '\n' !in w)
  }

  lemma StrippedAround(a: string, w: string, b: string)
    requires MayRespace(After(Code, a), w)
    ensures var m := After(Code, a);
            var n := match m case Slash => Code case Escape => Str case _ => m;
            && (Normal(a + w + b).Some? <==> NoBlockComment(a) && NoBlockComment(b) && Accepts(After(n, b)))
            && (Normal(a + w + b).Some? ==>
                  Normal(a + w + b).value == Join(Words(Kept(Code, a) + Flush(m)) + Words(Out(n, b))))
  {
    hide Words, Kept, After, NoBlockComment, IsWhite, Join, Out, Flush;
    var m := After(Code, a);
    var n := match m case Slash => Code case Escape => Str case _ => m;
    NoBlockSplits(a, w, b);
    AfterAppend(Code, a, w);
    AfterAppend(Code, a + w, b);
    WhiteScans(m, w);
    OutAppend(Code, a + w, b);
    Assoc3(Kept(Code, a), Flush(m), w);
    WordsSplit(Kept(Code, a) + Flush(m), w, Out(n, b));
    StrippedIsOut(a + w + b);
  }

  lemma StrippedIsOut(src: string)
    ensures Stripped(src) == if !NoBlockComment(src) || !Accepts(After(Code, src)) then None else Some(Out(Code, src))
  {
  }

  /** Rewrapping, or changing an amount of whitespace, changes nothing. */
  lemma WhitespaceIsImmaterial(a: string, w: string, v: string, b: string)
    requires MayRespace(After(Code, a), w) && MayRespace(After(Code, a), v)
    ensures Normal(a + w + b) == Normal(a + v + b)
  {
    hide Words, Kept, After, NoBlockComment, Join, Normal, IsWhite;
    StrippedAround(a, w, b);
    StrippedAround(a, v, b);
  }

  function Slashes(s: string): nat
    decreases |s|
  {
    if s == [] then 0 else (if s[0] == '/' then 1 else 0) + Slashes(s[1..])
  }

  lemma {:induction false} SlashesAppend(a: string, b: string)
    ensures Slashes(a + b) == Slashes(a) + Slashes(b)
    decreases |a|
  {
    if a == [] {
      assert a + b == b;
    } else {
      assert (a + b)[1..] == a[1..] + b;
      SlashesAppend(a[1..], b);
    }
  }

  lemma WhiteIsNoSlash(c: char)
    requires IsWhite(c)
    ensures c != '/'
  {
  }

  lemma {:induction false} CollapseKeepsSlashes(s: string)
    ensures Slashes(Collapse(s)) == Slashes(s) && Slashes(Spaced(Words(s))) == Slashes(s)
    decreases |s|
  {
    hide Words, WordEnd, IsWhite;
    if s == [] {
      NoWords();
    } else if IsWhite(s[0]) {
      SkipWhite(s);
      WhiteIsNoSlash(s[0]);
      CollapseKeepsSlashes(s[1..]);
    } else {
      WordEndPositive(s);
      TakeWord(s, WordEnd(s));
      var n := WordEnd(s);
      var word, tail := s[..n], s[n..];
      CollapseKeepsSlashes(tail);
      var words := Words(s);
      assert words[0] == word && words[1..] == Words(tail) && s == word + tail;
      SlashesAppend(word, tail);
      SlashesAppend(word, Spaced(Words(tail)));
      assert Spaced(words) == [' '] + (word + Spaced(Words(tail)));
      SlashesAppend([' '], word + Spaced(Words(tail)));
      assert Slashes([' ']) == 0;
    }
  }

  /** The text of one line of a source, and what stands before and after it. */
  predicate IsLineOf(before: string, line: string, after: string) {
    && (before == [] || before[|before| - 1] == '\n') && '\n' !in line && (after == [] || after[0] == '\n')
  }

  predicate HasComment(line: Line) { After(Code, line) == Comment }

  lemma NewlineNext(m: Mode, after: string)
    requires after != [] && after[0] == '\n' && Accepts(After(m, after))
    ensures Accepts(m)
  {
    hide After;
    Unfold(m, after);
    BrokenStays(after[1..]);
  }

  lemma LineStartsInCode(before: string, line: string, after: string)
    requires IsLineOf(before, line, after) && Accepts(After(Code, before + line + after))
    ensures After(Code, before) == Code && Accepts(After(Code, line))
  {
    hide After, Kept;
    var m := After(Code, before);
    assert (before + line) + after == before + (line + after);
    AfterAppend(Code, before, line + after);
    BrokenStays(line + after);
    if before == [] {
      Nothing(Code, line);
    } else {
      var n := |before| - 1;
      TakeOne(Code, before, n);
      assert before[..n + 1] == before;
      assert m == Code || m == Broken;
    }
    AfterAppend(Code, line, after);
    if after == [] {
      assert line + after == line;
    } else {
      NewlineNext(After(Code, line), after);
    }
  }

  lemma EndsInSlash(line: Line)
    requires Accepts(After(Code, line)) && !HasComment(line)
    ensures After(Code, line) == Slash <==> line != [] && line[|line| - 1] == '/'
  {
    hide After, Kept;
    if line == [] {
      Nothing(Code, line);
    } else {
      var n := |line| - 1;
      TakeOne(Code, line, n);
      assert line[..n + 1] == line;
    }
  }

  lemma CommentScans(m: Mode, c: Line)
    requires Accepts(m)
    ensures After(m, "//" + c) == Comment && Kept(m, "//" + c) == []
  {
    var t := "//" + c;
    assert t[1..][1..] == c && t[0] == '/' && t[1..][0] == '/';
    CommentLasts(c);
    assert m == Slash ==> Step(m, '/') == Comment && Emit(m, '/') == [];
    CommentLasts(t[1..]);
  }

  /** Adding a `//` comment to the end of a line leaves the normal form as it was exactly when the
      line had a comment already or does not end in a `/`: a last `/` is taken into the comment. */
  lemma CommentIsImmaterial(before: string, line: Line, c: Line, after: string)
    requires IsLineOf(before, line, after) && Normal(before + line + after).Some?
    requires NoBlockComment("//" + c)
    ensures Normal(before + (line + "//" + c) + after).Some?
    ensures Normal(before + (line + "//" + c) + after) == Normal(before + line + after)
            <==> HasComment(line) || line == [] || line[|line| - 1] != '/'
  {
    hide After, Kept, Words, Join, IsWhite, NoBlockComment;
    LineStartsInCode(before, line, after);
    CommentedScans(before, line, c, after);
    if !HasComment(line) { EndsInSlash(line); }
    var old_, new_ := Stripped(before + line + after).value, Stripped(before + (line + "//" + c) + after).value;
    if After(Code, line) != Slash {
      assert [] + Out(Comment, after) == Out(Comment, after);
      assert old_ == new_;
    } else {
      var head, tail := Kept(Code, before) + Kept(Code, line), Out(Comment, after);
      SlashesAppend(head, "/" + tail);
      SlashesAppend("/", tail);
      SlashesAppend(head, tail);
      assert Slashes("/") == 1;
      CollapseKeepsSlashes(old_);
      CollapseKeepsSlashes(new_);
    }
  }

  lemma NothingPending()
    ensures Flush(Comment) == []
  {
  }

  lemma NewlineEmits(m: Mode)
    requires Accepts(m)
    ensures Step(m, '\n') == Code && Emit(m, '\n') == Flush(m) + "\n" && Emit(Comment, '\n') == "\n"
  {
  }

  lemma FromHereOn(m: Mode, after: string)
    requires Accepts(m) && (after == [] || after[0] == '\n')
    ensures Accepts(After(m, after)) <==> Accepts(After(Comment, after))
    ensures Out(m, after) == Flush(m) + Out(Comment, after)
  {
    hide After, Kept, Step, Emit, Flush, Out;
    NewlineEmits(m);
    NewlineEmits(Comment);
    if after == [] {
      Nothing(m, after);
      Nothing(Comment, after);
      NothingPending();
      OutNothing(m);
      OutNothing(Comment);
      assert Flush(m) + [] == Flush(m);
    } else {
      Unfold(m, after);
      Unfold(Comment, after);
      OutCons(m, after);
      OutCons(Comment, after);
      Assoc3(Flush(m), "\n", Out(Code, after[1..]));
    }
  }

  lemma CommentedScans(before: string, line: Line, c: Line, after: string)
    requires IsLineOf(before, line, after) && After(Code, before) == Code && Accepts(After(Code, line))
    requires NoBlockComment(before + line + after) && NoBlockComment("//" + c)
    ensures NoBlockComment(before + (line + "//" + c) + after)
    ensures var head, tail := Kept(Code, before) + Kept(Code, line), Out(Comment, after);
            var m := After(Code, line);
            && (Stripped(before + line + after).Some? <==> Accepts(After(Comment, after)))
            && (Stripped(before + (line + "//" + c) + after).Some? <==> Accepts(After(Comment, after)))
            && (Accepts(After(Comment, after)) ==>
                  && Stripped(before + line + after).value == head + (Flush(m) + tail)
                  && Stripped(before + (line + "//" + c) + after).value == head + tail)
  {
    hide After, Kept, Flush, NoBlockComment, Out, Stripped;
    var m := After(Code, line);
    var added := line + "//" + c;
    AddedHasNoBlock(before, line, c, after);
    StrippedIsOut(before + line + after);
    StrippedIsOut(before + added + after);
    LineThenRest(before, line, after);
    LineThenRest(before, added, after);
    FromHereOn(m, after);
    CommentScans(m, c);
    Assoc3(line, "//", c);
    AfterAppend(Code, line, "//" + c);
    assert Kept(Code, line) + [] == Kept(Code, line);
  }

  lemma LineThenRest(before: string, line: Line, after: string)
    requires After(Code, before) == Code
    ensures After(Code, before + line + after) == After(After(Code, line), after)
    ensures Out(Code, before + line + after) == Kept(Code, before) + Kept(Code, line) + Out(After(Code, line), after)
  {
    hide After, Kept, Out;
    AfterAppend(Code, before, line);
    AfterAppend(Code, before + line, after);
    OutAppend(Code, before + line, after);
  }

  lemma AddedHasNoBlock(before: string, line: Line, c: Line, after: string)
    requires IsLineOf(before, line, after) && NoBlockComment(before + line + after) && NoBlockComment("//" + c)
    ensures NoBlockComment(before + (line + "//" + c) + after)
  {
    var s := before + line + after;
    var n := |before| + |line|;
    NoBlockPart(s, 0, n);
    NoBlockPart(s, n, |s|);
    assert s[0..n] == before + line && s[n..|s|] == after;
    NoBlockConcat(before + line, "//" + c);
    NoBlockConcat((before + line) + ("//" + c), after);
    assert before + (line + "//" + c) + after == ((before + line) + ("//" + c)) + after;
  }

  /** A line that ends in a division sign loses it to a comment added after it. */
  lemma LastSlashIsTaken()
    ensures Normal("a /").Some? && Normal("a ///x").Some? && Normal("a ///x") != Normal("a /")
  {
    hide Collapse, Kept, Stripped;
    var line: Line, c: Line := "a /", "x";
    assert line[1..] == " /" && line[1..][1..] == "/" && line[1..][1..][1..] == "";
    assert After(Code, line) == Slash;
    assert "" + line + "" == line && "" + (line + "//" + c) + "" == "a ///x";
    StrippedIsOut(line);
    assert NoBlockComment("//" + c);
    CommentIsImmaterial("", line, c, "");
  }
}

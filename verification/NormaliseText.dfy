/** The normal form by its text: words with single spaces between them, and what is refused. */
module NormaliseText {
  import opened Normalise
  import opened Unicode
  import opened Wire

  /** A text cut into words, each behind the whitespace before it, and the whitespace at the end. */
  datatype Cut = Cut(gaps: seq<string>, words: seq<string>, tail: string) {
    ghost predicate Valid() {
      && |gaps| == |words| && AllWhite(tail)
      && (forall i | 0 <= i < |gaps| :: AllWhite(gaps[i]) && (i > 0 ==> gaps[i] != ""))
      && (forall i | 0 <= i < |words| :: IsWord(words[i]))
    }

    function Text(): string
      requires |gaps| == |words|
      decreases |words|
    {
      if words == [] then tail else gaps[0] + words[0] + Cut(gaps[1..], words[1..], tail).Text()
    }
  }

  ghost predicate IsWord(s: string) { s != "" && forall i | 0 <= i < |s| :: !IsWhite(s[i]) }

  /** The words, one space between each and the next. */
  function OneSpaceBetween(words: seq<string>): string {
    if words == [] then ""
    else if |words| == 1 then words[0]
    else OneSpaceBetween(words[..|words| - 1]) + " " + words[|words| - 1]
  }

  lemma WordIsTaken(gap: string, word: string, rest: string)
    requires AllWhite(gap) && IsWord(word) && (rest == "" || IsWhite(rest[0]))
    ensures Words(gap + word + rest) == [word] + Words(rest)
  {
    hide Words, IsWhite;
    Assoc3(gap, word, rest);
    SkipAllWhite(gap, word + rest);
    var s, n := word + rest, |word|;
    assert forall i | 0 <= i < n :: s[i] == word[i];
    assert s[..n] == word && s[n..] == rest;
    TakeWord(s, n);
  }

  lemma RestStartsWhite(c: Cut)
    requires c.Valid() && (c.words == [] || c.gaps[0] != "")
    ensures c.Text() == "" || IsWhite(c.Text()[0])
  {
    hide IsWhite;
    if c.words != [] {
      assert c.Text()[0] == c.gaps[0][0];
    }
  }

  lemma {:induction false} WordsAreCut(c: Cut)
    requires c.Valid()
    ensures Words(c.Text()) == c.words
    decreases |c.words|
  {
    hide Words, IsWhite, AllWhite, IsWord;
    if c.words == [] {
      assert c.tail + "" == c.tail;
      SkipAllWhite(c.tail, "");
      NoWords();
    } else {
      var rest := Cut(c.gaps[1..], c.words[1..], c.tail);
      assert forall i | 0 <= i < |rest.gaps| :: rest.gaps[i] == c.gaps[i + 1];
      RestStartsWhite(rest);
      WordIsTaken(c.gaps[0], c.words[0], rest.Text());
      WordsAreCut(rest);
      assert c.words == [c.words[0]] + c.words[1..];
    }
  }

  lemma {:induction false} SpacedLast(words: seq<string>, last: string)
    ensures Spaced(words + [last]) == Spaced(words) + (" " + last)
  {
    if words == [] {
      assert [] + [last] == [last] && [last][1..] == [];
    } else {
      assert (words + [last])[1..] == words[1..] + [last];
      SpacedLast(words[1..], last);
    }
  }

  lemma {:induction false} JoinIsSpaced(words: seq<string>)
    ensures Join(words) == OneSpaceBetween(words)
    decreases |words|
  {
    if |words| > 1 {
      var n := |words| - 1;
      JoinIsSpaced(words[..n]);
      assert words[1..] == words[1..n] + [words[n]] && words[..n][1..] == words[1..n];
      SpacedLast(words[1..n], words[n]);
    }
  }

  /** However a text is spread over whitespace, what is left are its words, one space between them. */
  lemma CollapseByText(c: Cut)
    requires c.Valid()
    ensures Collapse(c.Text()) == OneSpaceBetween(c.words)
  {
    hide Words, Join;
    WordsAreCut(c);
    JoinIsSpaced(c.words);
  }

  /** Every text can be cut so. */
  lemma {:induction false} CutOf(s: string) returns (c: Cut)
    ensures c.Valid() && c.Text() == s
    decreases |s|
  {
    hide IsWhite;
    if s == "" {
      c := Cut([], [], "");
    } else {
      var d := CutOf(s[1..]);
      assert s == [s[0]] + s[1..];
      if IsWhite(s[0]) {
        c := WithWhite(s[0], d);
      } else if d.words != [] && d.gaps[0] == "" {
        c := d.(words := [[s[0]] + d.words[0]] + d.words[1..]);
        Lengthened(s[0], d, c);
      } else {
        c := Cut([""] + d.gaps, [[s[0]]] + d.words, d.tail);
        assert c.gaps[1..] == d.gaps && c.words[1..] == d.words;
      }
    }
  }

  lemma WithWhite(b: char, d: Cut) returns (c: Cut)
    requires d.Valid() && IsWhite(b)
    ensures c.Valid() && c.Text() == [b] + d.Text()
  {
    hide IsWhite;
    if d.words == [] {
      c := d.(tail := [b] + d.tail);
    } else {
      c := d.(gaps := [[b] + d.gaps[0]] + d.gaps[1..]);
      assert c.gaps[1..] == d.gaps[1..];
    }
  }

  lemma Lengthened(b: char, d: Cut, c: Cut)
    requires d.Valid() && d.words != [] && d.gaps[0] == "" && !IsWhite(b)
    requires c == d.(words := [[b] + d.words[0]] + d.words[1..])
    ensures c.Valid() && c.Text() == [b] + d.Text()
  {
    hide IsWhite;
    assert c.words[1..] == d.words[1..];
  }

  // ----- what is refused

  predicate OpensBlockComment(s: string, i: nat) { i + 2 <= |s| && s[i..i + 2] == "/*" }

  lemma OpeningIsTwoCharacters(s: string, i: nat)
    ensures OpensBlockComment(s, i) <==> i + 1 < |s| && s[i] == '/' && s[i + 1] == '*'
  {
    if i + 2 <= |s| {
      assert s[i..i + 2] == [s[i], s[i + 1]];
    }
  }

  lemma BlockCommentOpens(s: string)
    ensures NoBlockComment(s) <==> forall i :: !OpensBlockComment(s, i)
  {
    hide OpensBlockComment;
    if NoBlockComment(s) {
      forall i: nat ensures !OpensBlockComment(s, i) {
        OpeningIsTwoCharacters(s, i);
      }
    } else {
      var i: int :| 0 <= i < |s| - 1 && s[i] == '/' && s[i + 1] == '*';
      OpeningIsTwoCharacters(s, i);
    }
  }

  /** A source is refused exactly when it holds the two characters of a block comment's opening anywhere, or
      some line leaves a string open. */
  lemma RefusedExactly(src: string)
    ensures Normal(src).None? <==> (exists i :: OpensBlockComment(src, i)) || !Accepts(After(Code, src))
  {
    hide After, Kept, Collapse, OpensBlockComment;
    BlockCommentOpens(src);
  }
}

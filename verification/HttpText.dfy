/** Chunked responses byte for byte: sizes, line breaks and characters by number. */
module HttpText {
  import opened Wire
  import Http

  // ----- size lines

  predicate IsBlank(s: Bytes) { forall i | 0 <= i < |s| :: s[i] in {9, 10, 11, 12, 13, 32} }

  predicate SpellsDigit(b: byte, d: nat) {
    d < 16 && ("0123456789abcdef"[d] as int == b || "0123456789ABCDEF"[d] as int == b)
  }

  predicate SpellsDigits(s: Bytes, ds: seq<nat>) {
    |s| == |ds| && forall i | 0 <= i < |s| :: SpellsDigit(s[i], ds[i])
  }

  function Number(ds: seq<nat>): nat {
    if ds == [] then 0 else 16 * Number(ds[..|ds| - 1]) + ds[|ds| - 1]
  }

  /** Blanks, perhaps a plus sign, hexadecimal digits in either case, blanks. */
  datatype SizeText = SizeText(before: Bytes, plus: bool, digits: Bytes, ds: seq<nat>, after: Bytes) {
    predicate Valid() { IsBlank(before) && IsBlank(after) && digits != [] && SpellsDigits(digits, ds) }

    function Core(): Bytes { (if plus then [43] else []) + digits }

    function Text(): Bytes { before + Core() + after }
  }

  lemma DigitIsSpelled(b: byte, d: nat)
    ensures SpellsDigit(b, d) <==> Http.HexDigit(b) == Some(d)
  {
  }

  lemma {:induction false} DigitsAreSpelled(s: Bytes, ds: seq<nat>)
    requires SpellsDigits(s, ds)
    ensures Http.HexValue(s) == Some(Number(ds))
    decreases |s|
  {
    hide Http.HexDigit, SpellsDigit;
    if s != [] {
      var n := |s| - 1;
      DigitsAreSpelled(s[..n], ds[..n]);
      DigitIsSpelled(s[n], ds[n]);
    }
  }

  lemma {:induction false} DigitsSpell(s: Bytes, n: nat) returns (ds: seq<nat>)
    requires Http.HexValue(s) == Some(n)
    ensures SpellsDigits(s, ds) && Number(ds) == n
    decreases |s|
  {
    hide Http.HexDigit, SpellsDigit;
    ds := [];
    if s != [] {
      var k := |s| - 1;
      var high := DigitsSpell(s[..k], Http.HexValue(s[..k]).value);
      var low := Http.HexDigit(s[k]).value;
      DigitIsSpelled(s[k], low);
      ds := high + [low];
      assert ds[..k] == high;
    }
  }

  predicate StandsFree(core: Bytes) {
    core != [] && core[0] !in {9, 10, 11, 12, 13, 32} && core[|core| - 1] !in {9, 10, 11, 12, 13, 32}
  }

  lemma {:induction false} TrimsStart(before: Bytes, rest: Bytes)
    requires IsBlank(before) && rest != [] && rest[0] !in {9, 10, 11, 12, 13, 32}
    ensures Http.TrimStart(before + rest) == rest
    decreases |before|
  {
    if before == [] {
      assert before + rest == rest;
    } else {
      TrimsStart(before[1..], rest);
      assert (before + rest)[1..] == before[1..] + rest;
    }
  }

  lemma {:induction false} TrimsEnd(rest: Bytes, after: Bytes)
    requires IsBlank(after) && rest != [] && rest[|rest| - 1] !in {9, 10, 11, 12, 13, 32}
    ensures Http.TrimEnd(rest + after) == rest
    decreases |after|
  {
    if after == [] {
      assert rest + after == rest;
    } else {
      var n := |after| - 1;
      TrimsEnd(rest, after[..n]);
      assert (rest + after)[..|rest| + n] == rest + after[..n];
    }
  }

  lemma Trims(before: Bytes, core: Bytes, after: Bytes)
    requires IsBlank(before) && IsBlank(after) && StandsFree(core)
    ensures Http.TrimEnd(Http.TrimStart(before + core + after)) == core
  {
    Assoc(before, core, after);
    TrimsStart(before, core + after);
    TrimsEnd(core, after);
  }

  lemma {:induction false} StartTrimmed(s: Bytes) returns (before: Bytes)
    ensures IsBlank(before) && s == before + Http.TrimStart(s)
    decreases |s|
  {
    before := [];
    if s != [] && Http.IsSpace(s[0]) {
      var more := StartTrimmed(s[1..]);
      before := [s[0]] + more;
      assert s == [s[0]] + s[1..];
    }
  }

  lemma {:induction false} EndTrimmed(s: Bytes) returns (after: Bytes)
    ensures IsBlank(after) && s == Http.TrimEnd(s) + after
    decreases |s|
  {
    after := [];
    if s != [] && Http.IsSpace(s[|s| - 1]) {
      var n := |s| - 1;
      var more := EndTrimmed(s[..n]);
      after := more + [s[n]];
      assert s == s[..n] + [s[n]];
    }
  }

  lemma DigitStandsFree(b: byte, d: nat)
    requires SpellsDigit(b, d)
    ensures b !in {9, 10, 11, 12, 13, 32, 43} && b < 128
  {
    hide SpellsDigit;
    DigitIsSpelled(b, d);
  }

  lemma CoreStandsFree(t: SizeText)
    requires t.Valid()
    ensures StandsFree(t.Core()) && t.digits[0] != 43 && t.digits[0] < 128
  {
    hide SpellsDigit;
    var last := |t.digits| - 1;
    DigitStandsFree(t.digits[0], t.ds[0]);
    DigitStandsFree(t.digits[last], t.ds[last]);
  }

  lemma SizeIsRead(t: SizeText)
    requires t.Valid()
    ensures Http.SizeOf(t.Text()) == if Number(t.ds) < 0x1_0000_0000_0000_0000 then Number(t.ds) else 0
  {
    hide Http.TrimStart, Http.TrimEnd, IsBlank, StandsFree, Http.HexValue, SpellsDigits;
    CoreStandsFree(t);
    Trims(t.before, t.Core(), t.after);
    DigitsAreSpelled(t.digits, t.ds);
    assert t.plus ==> t.Core()[1..] == t.digits;
    assert !t.plus ==> t.Core() == t.digits;
  }

  lemma SizeIsSpelled(line: Bytes) returns (t: SizeText)
    requires Http.SizeOf(line) > 0
    ensures t.Valid() && t.Text() == line && Number(t.ds) == Http.SizeOf(line)
  {
    hide Http.TrimStart, Http.TrimEnd, IsBlank, Http.HexValue, SpellsDigits;
    var rest := Http.TrimStart(line);
    var core := Http.TrimEnd(rest);
    var before := StartTrimmed(line);
    var after := EndTrimmed(rest);
    var plus := core[0] == 43;
    var digits := if plus then core[1..] else core;
    var ds := DigitsSpell(digits, Http.SizeOf(line));
    t := SizeText(before, plus, digits, ds, after);
    assert t.Core() == core;
    Assoc(before, core, after);
  }

  /** A line says a size exactly when it spells it in hexadecimal below 2^64; any other line says zero. */
  lemma SizeExactly(line: Bytes, n: nat)
    requires n > 0
    ensures Http.SizeOf(line) == n <==>
            n < 0x1_0000_0000_0000_0000 && exists t: SizeText :: t.Valid() && t.Text() == line && Number(t.ds) == n
  {
    hide SizeText.Valid, SizeText.Text, Number;
    if Http.SizeOf(line) == n {
      var t := SizeIsSpelled(line);
    }
    if n < U64 && exists t: SizeText :: t.Valid() && t.Text() == line && Number(t.ds) == n {
      var t: SizeText :| t.Valid() && t.Text() == line && Number(t.ds) == n;
      SizeIsRead(t);
    }
  }

  // ----- one chunk

  /** No character of UTF-8 goes on at `i`. */
  predicate Between(s: Bytes, i: nat) { i == |s| || (i < |s| && s[i] / 64 != 2) }

  /** What one size line and the bytes behind it give: the data if all of it is there and ends between two
      characters, and whatever the bytes behind it and its line break give if those do as well. */
  lemma ChunkByNumber(line: Bytes, tail: Bytes)
    requires forall k: nat | k + 1 < |line| :: line[k] == 13 ==> line[k + 1] != 10
    requires line == [] || line[|line| - 1] != 13
    requires 0 < Http.SizeOf(line) < 0xffff_ffff_ffff_fffe
    ensures var n := Http.SizeOf(line);
      Http.Unchunked(line + [13, 10] + tail)
      == (if Between(tail, n) then tail[..n] else [])
       + (if Between(tail, n + 2) then Http.Unchunked(tail[n + 2..]) else [])
  {
    hide Http.SizeOf, Http.Unchunked;
    forall k: nat ensures !Http.At(line, Http.CRLF, k) {
      if k + 2 <= |line| {
        assert line[k..k + 2] == [line[k], line[k + 1]];
      }
    }
    Http.UnchunksOne(line, tail);
    Http.UnchunksNothing();
  }

  // ----- whole responses

  /** A size line without a line feed, and its data. */
  datatype Part = Part(size: SizeText, data: Bytes) {
    ghost predicate Valid() {
      && size.Valid() && 10 !in size.Text() && data != [] && Number(size.ds) == |data| < 0xffff_ffff_ffff_fffe
    }
  }

  function Sent(parts: seq<Part>): Bytes {
    if parts == [] then [48, 13, 10, 13, 10]
    else parts[0].size.Text() + [13, 10] + parts[0].data + [13, 10] + Sent(parts[1..])
  }

  function AllData(parts: seq<Part>): Bytes {
    if parts == [] then [] else parts[0].data + AllData(parts[1..])
  }

  function ChunkOf(p: Part): Http.Chunk { Http.Chunk(p.size.Text(), p.data) }

  lemma PartIsChunk(p: Part)
    requires p.Valid()
    ensures ChunkOf(p).Valid() && Http.StartsClean(p.size.Text() + Http.CRLF)
  {
    hide Http.SizeOf, SizeText.Text;
    SizeIsRead(p.size);
    var line := p.size.Text();
    forall k: nat ensures !Http.At(line, Http.CRLF, k) {
      if k + 2 <= |line| {
        assert line[k + 1] in line && line[k..k + 2][1] == line[k + 1];
      }
    }
    FirstIsAscii(p.size);
  }

  lemma FirstIsAscii(t: SizeText)
    requires t.Valid()
    ensures t.Text() != [] && t.Text()[0] < 128
  {
    hide SpellsDigit;
    CoreStandsFree(t);
    assert t.before != [] ==> t.Text()[0] == t.before[0];
    assert t.before == [] ==> t.Text()[0] == t.Core()[0];
  }

  lemma {:induction false} PartsAreChunks(parts: seq<Part>) returns (chunks: seq<Http.Chunk>)
    requires forall p | p in parts :: p.Valid()
    ensures Http.AllClean(chunks, [48, 13, 10, 13, 10])
    ensures Http.Body(chunks, [48, 13, 10, 13, 10]) == Sent(parts) && Http.Joined(chunks) == AllData(parts)
  {
    hide Part.Valid, Http.Chunk.Valid, SizeText.Text;
    chunks := [];
    if parts != [] {
      var more := PartsAreChunks(parts[1..]);
      assert parts[0] in parts;
      PartIsChunk(parts[0]);
      chunks := [ChunkOf(parts[0])] + more;
      assert chunks[1..] == more;
    }
  }

  lemma ZeroIsLast()
    ensures Http.IsLast([48, 13, 10, 13, 10])
  {
    hide Http.SizeOf, Number;
    var last: Bytes := [48, 13, 10, 13, 10];
    assert last[0..2] == [48, 13] && last[1..3] == [13, 10];
    Http.FindIs(last, Http.CRLF, 1);
    var t := SizeText([], false, [48], [0], []);
    assert SpellsDigit(48, 0) && t.Text() == [48] == last[..1];
    SizeIsRead(t);
    assert Number([0]) == 0 by { ZeroIsNothing(); }
  }

  lemma ZeroIsNothing()
    ensures Number([0]) == 0
  {
    assert Number([0][..0]) == 0;
  }

  predicate BlankLineAt(s: Bytes, i: nat) {
    i + 4 <= |s| && s[i] == 13 && s[i + 1] == 10 && s[i + 2] == 13 && s[i + 3] == 10
  }

  lemma BlankLineStands(s: Bytes, i: nat)
    ensures Http.At(s, Http.BLANK_LINE, i) <==> BlankLineAt(s, i)
  {
    if i + 4 <= |s| {
      assert s[i..i + 4] == [s[i], s[i + 1], s[i + 2], s[i + 3]];
    }
  }

  /** A response whose header holds the words, in chunks spelled as above, decodes to the chunks' data. */
  lemma ResponseByNumber(head: Bytes, parts: seq<Part>)
    requires forall i: nat | i < |head| :: !BlankLineAt(head + [13, 10, 13, 10], i)
    requires exists i: nat :: Http.WordsAt(head, i)
    requires forall p | p in parts :: p.Valid()
    ensures Http.Decoded(head + [13, 10, 13, 10] + Sent(parts)) == AllData(parts)
  {
    hide Part.Valid, Sent, AllData, Http.AllClean, Http.IsLast, Http.Body, Http.Joined, Http.Decoded, Http.SaysChunked;
    Http.SaysChunkedExactly(head);
    var chunks := PartsAreChunks(parts);
    ZeroIsLast();
    forall i: nat | i < |head| ensures !Http.At(head + Http.BLANK_LINE, Http.BLANK_LINE, i) {
      BlankLineStands(head + Http.BLANK_LINE, i);
    }
    Http.WholeResponse(head, chunks, [48, 13, 10, 13, 10]);
  }

  /** A response that holds no blank line decodes to nothing. */
  lemma NoBlankLineNoBody(raw: Bytes)
    requires forall i: nat :: !BlankLineAt(raw, i)
    ensures Http.Decoded(raw) == []
  {
    hide Http.SaysChunked;
    forall i: nat ensures !Http.At(raw, Http.BLANK_LINE, i) {
      BlankLineStands(raw, i);
    }
    Http.NotFound(raw, Http.BLANK_LINE);
    Http.UnchunksNothing();
  }
}

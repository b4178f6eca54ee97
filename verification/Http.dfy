/** The HTTP response decoder: headers split off, chunks joined (RFC 9112, section 7.1, without
    chunk extensions). Text is its UTF-8 bytes. */
module Http {
  import opened Wire

  const CRLF: Bytes := [13, 10]
  const BLANK_LINE: Bytes := [13, 10, 13, 10]
  const USIZE: nat := U64

  // ----- the string operations the decoder calls

  predicate At(s: Bytes, pat: Bytes, i: nat) { i + |pat| <= |s| && s[i..i + |pat|] == pat }

  /** The first place `pat` stands, if anywhere. */
  function Find(s: Bytes, pat: Bytes): (i: Option<nat>)
    ensures i.Some? ==> At(s, pat, i.value) && forall k: nat | k < i.value :: !At(s, pat, k)
    ensures i.None? ==> forall k: nat | k <= |s| :: !At(s, pat, k)
  {
    FindFrom(s, pat, 0)
  }

  function FindFrom(s: Bytes, pat: Bytes, from: nat): (i: Option<nat>)
    requires from <= |s| && forall k: nat | k < from :: !At(s, pat, k)
    ensures i.Some? ==> At(s, pat, i.value) && forall k: nat | k < i.value :: !At(s, pat, k)
    ensures i.None? ==> forall k: nat | k <= |s| :: !At(s, pat, k)
    decreases |s| - from
  {
    if At(s, pat, from) then Some(from) else if from == |s| then None else FindFrom(s, pat, from + 1)
  }

  /** `split_once`. */
  function SplitOnce(s: Bytes, pat: Bytes): Option<(Bytes, Bytes)> {
    match Find(s, pat)
    case None => None
    case Some(i) => Some((s[..i], s[i + |pat|..]))
  }

  /** A place between two characters: no UTF-8 continuation byte follows. */
  predicate IsBoundary(s: Bytes, i: nat) { i == |s| || (i < |s| && !(128 <= s[i] < 192)) }

  /** `get(..n)` and `get(n..)`. */
  function GetTo(s: Bytes, n: nat): Option<Bytes> { if IsBoundary(s, n) then Some(s[..n]) else None }

  function GetFrom(s: Bytes, n: nat): Option<Bytes> { if IsBoundary(s, n) then Some(s[n..]) else None }

  predicate IsSpace(b: byte) { 9 <= b <= 13 || b == 32 }

  function TrimStart(s: Bytes): Bytes { if s != [] && IsSpace(s[0]) then TrimStart(s[1..]) else s }

  function TrimEnd(s: Bytes): Bytes { if s != [] && IsSpace(s[|s| - 1]) then TrimEnd(s[..|s| - 1]) else s }

  function HexDigit(b: byte): Option<nat> {
    if 48 <= b < 58 then Some(b - 48)
    else if 97 <= b < 103 then Some(b - 87)
    else if 65 <= b < 71 then Some(b - 55)
    else None
  }

  /** The value of hexadecimal digits, unless one is not a digit. */
  function HexValue(s: Bytes): (v: Option<nat>) {
    if s == [] then Some(0)
    else
      var high, low := HexValue(s[..|s| - 1]), HexDigit(s[|s| - 1]);
      if high.None? || low.None? then None else Some(16 * high.value + low.value)
  }

  /** `usize::from_str_radix(…, 16)`: an optional plus sign, at least one digit, no overflow. */
  function FromStrRadix16(s: Bytes): Option<nat> {
    var digits := if s != [] && s[0] == 43 then s[1..] else s;
    if digits == [] then None
    else
      match HexValue(digits)
      case None => None
      case Some(v) => if v < USIZE then Some(v) else None
  }

  /** A size that cannot be read counts as zero. */
  function SizeOf(line: Bytes): (size: nat)
    ensures size < USIZE
  {
    match FromStrRadix16(TrimEnd(TrimStart(line)))
    case None => 0
    case Some(v) => v
  }

  function Lower(s: Bytes): Bytes { seq(|s|, i requires 0 <= i < |s| => if 65 <= s[i] < 91 then s[i] + 32 else s[i]) }

  /** "transfer-encoding: chunked". */
  const CHUNKED: Bytes := [116, 114, 97, 110, 115, 102, 101, 114, 45, 101, 110, 99, 111, 100, 105, 110, 103, 58, 32,
                           99, 104, 117, 110, 107, 101, 100]

  predicate SaysChunked(raw: Bytes) { Find(Lower(raw), CHUNKED).Some? }

  // ----- the decoder

  function OrEmpty(s: Option<Bytes>): Bytes { match s case None => [] case Some(v) => v }

  /** `size + 2` in the release build's wrapping arithmetic: past the chunk and the line break behind it. */
  function Past(size: nat): nat { (size + 2) % USIZE }

  function Unchunked(rest: Bytes): Bytes
    decreases |rest|
  {
    match SplitOnce(rest, CRLF)
    case None => []
    case Some((line, tail)) =>
      var size := SizeOf(line);
      if size == 0 then [] else OrEmpty(GetTo(tail, size)) + Unchunked(OrEmpty(GetFrom(tail, Past(size))))
  }

  function Decoded(raw: Bytes): Bytes {
    var body := match SplitOnce(raw, BLANK_LINE) case None => [] case Some((_, b)) => b;
    if SaysChunked(raw) then Unchunked(body) else body
  }

  /** `decode`. */
  method Decode(raw: Bytes) returns (text: Bytes)
    ensures text == Decoded(raw)
  {
    hide SizeOf, SplitOnce, Lower, GetTo, GetFrom, SaysChunked;
    var split := SplitOnce(raw, BLANK_LINE);
    var body := if split.Some? then split.value.1 else [];
    if !SaysChunked(raw) {
      return body;
    }
    text := JoinChunks(body);
  }

  /** The loop of `decode`. */
  method JoinChunks(body: Bytes) returns (out: Bytes)
    ensures out == Unchunked(body)
  {
    hide SizeOf, SplitOnce, GetTo, GetFrom;
    var rest := body;
    out := [];
    assert [] + Unchunked(body) == Unchunked(body);
    while true
      invariant out + Unchunked(rest) == Unchunked(body)
      decreases |rest|
    {
      var next := SplitOnce(rest, CRLF);
      if next.None? {
        break;
      }
      var sizeLine, tail := next.value.0, next.value.1;
      var size := SizeOf(sizeLine);
      if size == 0 {
        break;
      }
      RestShrinks(rest, size);
      ghost var before := out;
      out := out + OrEmpty(GetTo(tail, size));
      Assoc(before, OrEmpty(GetTo(tail, size)), Unchunked(OrEmpty(GetFrom(tail, Past(size)))));
      rest := OrEmpty(GetFrom(tail, Past(size)));
    }
    assert Unchunked(rest) == [] && out + [] == out;
  }

  lemma RestShrinks(rest: Bytes, size: nat)
    requires SplitOnce(rest, CRLF).Some?
    ensures |OrEmpty(GetFrom(SplitOnce(rest, CRLF).value.1, Past(size)))| < |rest|
  {
  }

  // ----- chunked bodies

  /** A chunk: the line that spells its size and its data. */
  datatype Chunk = Chunk(line: Bytes, data: Bytes) {
    ghost predicate Valid() {
      data != [] && SizeOf(line) == |data| && |data| + 2 < USIZE && forall k: nat :: !At(line, CRLF, k)
    }

    function Bytes(): Bytes { line + CRLF + data + CRLF }
  }

  function Body(chunks: seq<Chunk>, last: Bytes): Bytes {
    if chunks == [] then last else chunks[0].Bytes() + Body(chunks[1..], last)
  }

  function Joined(chunks: seq<Chunk>): Bytes {
    if chunks == [] then [] else chunks[0].data + Joined(chunks[1..])
  }

  /** How many of the chunks have all their data among the first `k` bytes. */
  function Arrived(chunks: seq<Chunk>, k: nat): (n: nat)
    ensures n <= |chunks|
  {
    if chunks == [] then 0
    else
      var end := |chunks[0].line| + 2 + |chunks[0].data|;
      if k < end then 0 else 1 + Arrived(chunks[1..], if k < end + 2 then 0 else k - end - 2)
  }

  /** A line that says zero, and whatever follows it. */
  ghost predicate IsLast(last: Bytes) {
    Find(last, CRLF).Some? && SizeOf(last[..Find(last, CRLF).value]) == 0
  }

  lemma FindIs(s: Bytes, pat: Bytes, i: nat)
    requires At(s, pat, i) && forall k: nat | k < i :: !At(s, pat, k)
    ensures Find(s, pat) == Some(i)
  {
  }

  lemma NotFound(s: Bytes, pat: Bytes)
    requires forall k: nat :: !At(s, pat, k)
    ensures Find(s, pat) == None
  {
  }

  lemma NoEarlierBreak(line: Bytes, rest: Bytes, k: nat)
    requires k < |line| && !At(line, CRLF, k)
    ensures !At(line + CRLF + rest, CRLF, k)
  {
    var s := line + CRLF + rest;
    if k + 2 <= |line| {
      assert s[k..k + 2] == line[k..k + 2];
    } else {
      assert s[k..k + 2][1] == s[|line|] == 13;
    }
  }

  lemma SplitsAtLine(line: Bytes, rest: Bytes)
    requires forall k: nat :: !At(line, CRLF, k)
    ensures SplitOnce(line + CRLF + rest, CRLF) == Some((line, rest))
  {
    var s := line + CRLF + rest;
    forall k: nat | k < |line| ensures !At(s, CRLF, k) {
      NoEarlierBreak(line, rest, k);
    }
    assert s[|line|..|line| + 2] == CRLF;
    FindIs(s, CRLF, |line|);
    assert s[..|line|] == line && s[|line| + 2..] == rest;
  }

  /** A size line cut short is not a line. */
  lemma CutLine(line: Bytes, k: nat)
    requires (forall i: nat :: !At(line, CRLF, i)) && k < |line| + 2
    ensures Unchunked((line + CRLF)[..k]) == []
  {
    hide SizeOf;
    var s := (line + CRLF)[..k];
    forall i: nat ensures !At(s, CRLF, i) {
      assert !At(line, CRLF, i);
      if i + 2 <= |line| {
        assert i + 2 <= |s| ==> s[i..i + 2] == line[i..i + 2];
      } else if i + 2 <= |s| {
        assert s[i..i + 2][1] == (line + CRLF)[i + 1] == CRLF[0] != CRLF[1];
      }
    }
    NotFound(s, CRLF);
  }

  lemma UnchunksOne(line: Bytes, tail: Bytes)
    requires (forall k: nat :: !At(line, CRLF, k)) && SizeOf(line) > 0
    ensures Unchunked(line + CRLF + tail)
         == OrEmpty(GetTo(tail, SizeOf(line))) + Unchunked(OrEmpty(GetFrom(tail, Past(SizeOf(line)))))
  {
    hide SizeOf, Find, IsBoundary;
    SplitsAtLine(line, tail);
  }

  /** The last two sizes a word can count wrap: nothing is taken for the chunk, and decoding goes on behind
      the size line, or one byte behind it, as if that were the next size line. */
  lemma SizeWraps(line: Bytes, tail: Bytes)
    requires (forall k: nat :: !At(line, CRLF, k)) && SizeOf(line) >= USIZE - 2 && |tail| < USIZE - 2
    ensures Unchunked(line + CRLF + tail) == Unchunked(OrEmpty(GetFrom(tail, SizeOf(line) - (USIZE - 2))))
  {
    hide SizeOf, Unchunked, Past, OrEmpty, GetTo, GetFrom, At;
    UnchunksOne(line, tail);
    WrapTakesNothing(tail, SizeOf(line));
    NothingFirst(Unchunked(OrEmpty(GetFrom(tail, Past(SizeOf(line))))));
  }

  lemma WrapTakesNothing(tail: Bytes, size: nat)
    requires USIZE - 2 <= size < USIZE && |tail| < USIZE - 2
    ensures OrEmpty(GetTo(tail, size)) == [] && Past(size) == size - (USIZE - 2)
  {
  }

  lemma NothingFirst(s: Bytes)
    ensures [] + s == s
  {
  }

  lemma UnchunksNothing()
    ensures Unchunked([]) == []
  {
  }

  lemma PastChunk(c: Chunk)
    requires c.Valid()
    ensures Past(SizeOf(c.line)) == |c.data| + 2
  {
    hide SizeOf;
  }

  /** Data cut short is dropped; data that arrived whole is kept even when what follows did not. */
  lemma CutData(c: Chunk, tail: Bytes, more: Bytes)
    requires c.Valid() && tail <= c.data + CRLF + more
    ensures |tail| < |c.data| ==> Unchunked(c.line + CRLF + tail) == []
    ensures |c.data| <= |tail| < |c.data| + 2 ==> Unchunked(c.line + CRLF + tail) == c.data
    ensures |tail| >= |c.data| + 2 && IsBoundary(tail, |c.data| + 2) ==>
              Unchunked(c.line + CRLF + tail) == c.data + Unchunked(tail[|c.data| + 2..])
  {
    hide SizeOf, Unchunked, Past;
    UnchunksOne(c.line, tail);
    UnchunksNothing();
    PastChunk(c);
    var n := |c.data|;
    if n <= |tail| {
      assert (c.data + CRLF + more)[..n] == c.data;
      assert tail[..n] == c.data;
      assert n < |tail| ==> tail[n] == (c.data + CRLF + more)[n] == 13;
      assert c.data + [] == c.data;
    } else {
      var none: Bytes := [];
      assert none + none == none;
    }
  }

  /** What follows a chunk starts on a character. */
  predicate StartsClean(s: Bytes) { s == [] || !(128 <= s[0] < 192) }

  ghost predicate AllClean(chunks: seq<Chunk>, last: Bytes) {
    StartsClean(last) && forall c | c in chunks :: c.Valid() && StartsClean(c.line + CRLF)
  }

  lemma BodyStartsClean(chunks: seq<Chunk>, last: Bytes)
    requires AllClean(chunks, last)
    ensures StartsClean(Body(chunks, last))
  {
    if chunks != [] {
      assert chunks[0] in chunks;
      assert Body(chunks, last)[0] == (chunks[0].line + CRLF)[0];
    }
  }

  lemma {:induction false} CutLast(last: Bytes, k: nat)
    requires IsLast(last) && k <= |last|
    ensures Unchunked(last[..k]) == []
  {
    hide SizeOf;
    var i := Find(last, CRLF).value;
    var line := last[..i];
    var s := last[..k];
    forall j: nat ensures !At(line, CRLF, j) {
      assert j < i ==> !At(last, CRLF, j);
      if j + 2 <= |line| {
        assert line[j..j + 2] == last[j..j + 2];
      }
    }
    LineThenBreak(last, i, k);
    if k < i + 2 {
      CutLine(line, k);
    } else {
      SplitsAtLine(line, last[i + 2..k]);
    }
  }

  lemma LineThenBreak(s: Bytes, i: nat, k: nat)
    requires At(s, CRLF, i) && k <= |s|
    ensures k < i + 2 ==> s[..k] == (s[..i] + CRLF)[..k]
    ensures k >= i + 2 ==> s[..k] == s[..i] + CRLF + s[i + 2..k]
  {
    assert s[..i + 2] == s[..i] + s[i..i + 2];
    if k < i + 2 {
      assert s[..k] == s[..i + 2][..k];
    } else {
      assert s[..k] == s[..i + 2] + s[i + 2..k];
    }
  }

  /** Any prefix of a chunked body gives exactly the chunks whose data fully arrived. */
  lemma {:induction false} PrefixGivesWholeChunks(chunks: seq<Chunk>, last: Bytes, k: nat)
    requires AllClean(chunks, last) && IsLast(last) && k <= |Body(chunks, last)|
    ensures Unchunked(Body(chunks, last)[..k]) == Joined(chunks[..Arrived(chunks, k)])
    decreases |chunks|
  {
    hide SizeOf, Unchunked, IsLast, IsBoundary, Past;
    var body := Body(chunks, last);
    if chunks == [] {
      CutLast(last, k);
      assert chunks[..0] == [];
    } else {
      var c, more := chunks[0], Body(chunks[1..], last);
      assert c in chunks && AllClean(chunks[1..], last);
      var h, end := |c.line| + 2, |c.line| + 2 + |c.data|;
      BodySplits(c, more);
      if k < h {
        assert body[..k] == (c.line + CRLF)[..k];
        CutLine(c.line, k);
        assert chunks[..0] == [];
      } else {
        var tail := (c.data + CRLF + more)[..k - h];
        assert body[..k] == c.line + CRLF + tail;
        CutData(c, tail, more);
        if k < end {
          assert chunks[..0] == [];
        } else if k < end + 2 {
          ArrivedNothing(chunks[1..]);
          assert chunks[..1] == [c];
          assert c.data + [] == c.data;
        } else {
          BodyStartsClean(chunks[1..], last);
          TailIsMore(c, tail, more, k - end - 2);
          PrefixGivesWholeChunks(chunks[1..], last, k - end - 2);
          var n := Arrived(chunks[1..], k - end - 2);
          assert chunks[..n + 1][0] == c && chunks[..n + 1][1..] == chunks[1..][..n];
        }
      }
    }
  }

  lemma BodySplits(c: Chunk, more: Bytes)
    ensures c.Bytes() + more == c.line + CRLF + (c.data + CRLF + more)
  {
  }

  lemma TailIsMore(c: Chunk, tail: Bytes, more: Bytes, k: nat)
    requires k <= |more| && tail == (c.data + CRLF + more)[..|c.data| + 2 + k] && StartsClean(more)
    ensures |tail| >= |c.data| + 2 && tail[|c.data| + 2..] == more[..k] && IsBoundary(tail, |c.data| + 2)
  {
    assert k > 0 ==> tail[|c.data| + 2] == more[0];
  }

  lemma ArrivedNothing(chunks: seq<Chunk>)
    ensures Arrived(chunks, 0) == 0
  {
  }

  lemma {:induction false} AllArrive(chunks: seq<Chunk>, last: Bytes)
    ensures Arrived(chunks, |Body(chunks, last)|) == |chunks|
    decreases |chunks|
  {
    if chunks != [] {
      AllArrive(chunks[1..], last);
    }
  }

  // ----- whole responses

  lemma HeaderSaysChunked(head: Bytes, rest: Bytes)
    requires SaysChunked(head)
    ensures SaysChunked(head + rest)
  {
    hide CHUNKED;
    var s, t := Lower(head), Lower(head + rest);
    var i := Find(s, CHUNKED).value;
    assert t[i..i + |CHUNKED|] == s[i..i + |CHUNKED|];
    assert At(t, CHUNKED, i);
  }

  lemma HeadSplits(head: Bytes, body: Bytes)
    requires forall i: nat | i < |head| :: !At(head + BLANK_LINE, BLANK_LINE, i)
    ensures SplitOnce(head + BLANK_LINE + body, BLANK_LINE) == Some((head, body))
  {
    var s := head + BLANK_LINE + body;
    forall i: nat | i < |head| ensures !At(s, BLANK_LINE, i) {
      assert !At(head + BLANK_LINE, BLANK_LINE, i) && s[i..i + 4] == (head + BLANK_LINE)[i..i + 4];
    }
    assert s[|head|..|head| + 4] == BLANK_LINE;
    FindIs(s, BLANK_LINE, |head|);
    assert s[..|head|] == head && s[|head| + 4..] == body;
  }

  /** The blank line has not arrived yet. */
  lemma CutHeader(head: Bytes, n: nat)
    requires (forall i: nat | i < |head| :: !At(head + BLANK_LINE, BLANK_LINE, i)) && n < |head| + 4
    ensures Decoded((head + BLANK_LINE)[..n]) == []
  {
    hide CHUNKED, Lower;
    var s := (head + BLANK_LINE)[..n];
    forall i: nat ensures !At(s, BLANK_LINE, i) {
      if i + 4 <= |s| {
        assert !At(head + BLANK_LINE, BLANK_LINE, i);
        assert s[i..i + 4] == (head + BLANK_LINE)[i..i + 4];
      }
    }
    NotFound(s, BLANK_LINE);
    UnchunksNothing();
  }

  function Response(head: Bytes, body: Bytes): Bytes { head + BLANK_LINE + body }

  /** A response whose header says it is chunked, cut anywhere: nothing before the blank line is whole,
      and from there on the chunks whose data fully arrived. */
  lemma TruncatedResponse(head: Bytes, chunks: seq<Chunk>, last: Bytes, n: nat)
    requires SaysChunked(head) && (forall i: nat | i < |head| :: !At(head + BLANK_LINE, BLANK_LINE, i))
    requires AllClean(chunks, last) && IsLast(last) && n <= |Response(head, Body(chunks, last))|
    ensures Decoded(Response(head, Body(chunks, last))[..n])
         == if n < |head| + 4 then [] else Joined(chunks[..Arrived(chunks, n - |head| - 4)])
  {
    hide CHUNKED, Lower, Unchunked, Joined, Body, IsLast, AllClean, SaysChunked;
    var whole, start := Response(head, Body(chunks, last)), head + BLANK_LINE;
    if n < |head| + 4 {
      assert whole[..n] == start[..n];
      CutHeader(head, n);
    } else {
      var k := n - |head| - 4;
      var body := Body(chunks, last)[..k];
      assert whole[..n] == start + body;
      PrefixGivesWholeChunks(chunks, last, k);
      HeaderSaysChunked(head, BLANK_LINE + body);
      assert head + (BLANK_LINE + body) == start + body;
      HeadSplits(head, body);
    }
  }

  /** The whole response decodes to the chunks' data, joined. */
  lemma WholeResponse(head: Bytes, chunks: seq<Chunk>, last: Bytes)
    requires SaysChunked(head) && (forall i: nat | i < |head| :: !At(head + BLANK_LINE, BLANK_LINE, i))
    requires AllClean(chunks, last) && IsLast(last)
    ensures Decoded(Response(head, Body(chunks, last))) == Joined(chunks)
  {
    hide CHUNKED, Lower, Unchunked, Joined, Body, IsLast, AllClean, SaysChunked, Decoded;
    var whole := Response(head, Body(chunks, last));
    TruncatedResponse(head, chunks, last, |whole|);
    AllArrive(chunks, last);
    assert whole[..|whole|] == whole && chunks[..|chunks|] == chunks;
  }

  // ----- how a header says it

  /** A byte and a letter of the words in either case. */
  predicate IsLetter(b: byte, c: char) { b == c as int || ('a' <= c <= 'z' && b == c as int - 32) }

  /** "transfer-encoding: chunked" in any mix of cases. */
  ghost predicate IsWords(x: Bytes) {
    var words := "transfer-encoding: chunked";
    |x| == |words| && forall i | 0 <= i < |words| :: words[i] < 128 as char && IsLetter(x[i], words[i])
  }

  ghost predicate WordsAt(raw: Bytes, i: nat) { i + 26 <= |raw| && IsWords(raw[i..i + 26]) }

  lemma WordsByLetter()
    ensures var words := "transfer-encoding: chunked";
      |CHUNKED| == |words| && forall i | 0 <= i < |words| :: words[i] < 128 as char && CHUNKED[i] == words[i] as int
    ensures forall i | 0 <= i < |CHUNKED| :: !(65 <= CHUNKED[i] < 91)
  {
  }

  lemma LowerIsWords(x: Bytes)
    ensures Lower(x) == CHUNKED <==> IsWords(x)
  {
    hide CHUNKED;
    WordsByLetter();
    var words := "transfer-encoding: chunked";
    if Lower(x) == CHUNKED {
      forall i | 0 <= i < |words| ensures words[i] < 128 as char && IsLetter(x[i], words[i]) {
        assert Lower(x)[i] == CHUNKED[i];
      }
    }
    if IsWords(x) {
      forall i | 0 <= i < |x| ensures Lower(x)[i] == CHUNKED[i] {
        assert IsLetter(x[i], words[i]);
      }
    }
  }

  /** A response counts as chunked exactly when the words stand in it somewhere, in any mix of cases. */
  lemma SaysChunkedExactly(raw: Bytes)
    ensures SaysChunked(raw) <==> exists i: nat :: WordsAt(raw, i)
  {
    hide CHUNKED, IsWords;
    WordsByLetter();
    assert |CHUNKED| == 26;
    forall i: nat ensures At(Lower(raw), CHUNKED, i) <==> WordsAt(raw, i) {
      if i + 26 <= |raw| {
        assert Lower(raw)[i..i + 26] == Lower(raw[i..i + 26]);
        LowerIsWords(raw[i..i + 26]);
      }
    }
    if SaysChunked(raw) {
      assert WordsAt(raw, Find(Lower(raw), CHUNKED).value);
    }
  }

  predicate IsAscii(s: Bytes, text: string) {
    |s| == |text| && forall i | 0 <= i < |text| :: text[i] < 128 as char && s[i] == text[i] as int
  }

  lemma LineIsWords(line: Bytes)
    requires IsAscii(line, "Transfer-Encoding: chunked")
    ensures IsWords(line)
  {
    var words, text := "transfer-encoding: chunked", "Transfer-Encoding: chunked";
    assert text[0] == 'T' && text[9] == 'E' && words[0] == 't' && words[9] == 'e';
    assert forall i | 0 <= i < 26 && i != 0 && i != 9 :: words[i] == text[i];
  }

  /** The header line as servers spell it. */
  lemma HeaderLineSays(before: Bytes, line: Bytes, behind: Bytes)
    requires IsAscii(line, "Transfer-Encoding: chunked")
    ensures SaysChunked(before + line + behind)
  {
    hide CHUNKED, IsWords;
    var raw := before + line + behind;
    assert raw[|before|..|before| + 26] == line;
    LineIsWords(line);
    assert WordsAt(raw, |before|);
    SaysChunkedExactly(raw);
  }

  // ----- responses that are not chunked

  lemma ChunkedHasNoBreak()
    ensures 13 !in CHUNKED && 10 !in CHUNKED && |CHUNKED| > 4
  {
  }

  lemma BodySaysChunked(before: Bytes, body: Bytes)
    requires SaysChunked(body)
    ensures SaysChunked(before + body)
  {
    hide CHUNKED;
    var s, t := Lower(body), Lower(before + body);
    var i := Find(s, CHUNKED).value;
    assert t[|before| + i..|before| + i + |CHUNKED|] == s[i..i + |CHUNKED|];
    assert At(t, CHUNKED, |before| + i);
  }

  /** The words are searched for in the whole response, but cannot reach across the blank line. */
  lemma SaysChunkedSomewhere(head: Bytes, body: Bytes)
    ensures SaysChunked(Response(head, body)) <==> SaysChunked(head) || SaysChunked(body)
  {
    hide CHUNKED;
    var whole := Response(head, body);
    assert whole == head + (BLANK_LINE + body) == (head + BLANK_LINE) + body;
    if SaysChunked(head) {
      HeaderSaysChunked(head, BLANK_LINE + body);
    }
    if SaysChunked(body) {
      BodySaysChunked(head + BLANK_LINE, body);
    }
    var i := Find(Lower(whole), CHUNKED);
    if i.Some? {
      WordsStand(head, body, i.value);
    }
  }

  lemma WordsStand(head: Bytes, body: Bytes, i: nat)
    requires At(Lower(Response(head, body)), CHUNKED, i)
    ensures SaysChunked(head) || SaysChunked(body)
  {
    hide CHUNKED;
    var t, n := Lower(Response(head, body)), |CHUNKED|;
    ChunkedHasNoBreak();
    forall k | i <= k < i + n ensures t[k] != 10 && t[k] != 13 {
      assert t[k] == t[i..i + n][k - i] == CHUNKED[k - i];
    }
    assert t[|head|] == 13 && t[|head| + 3] == 10;
    if i + n <= |head| {
      assert Lower(head)[i..i + n] == t[i..i + n];
      assert At(Lower(head), CHUNKED, i);
    } else {
      var j := i - |head| - 4;
      assert Lower(body)[j..j + n] == t[i..i + n];
      assert At(Lower(body), CHUNKED, j);
    }
  }

  /** Every chunk costs its size line. */
  lemma {:induction false} UnchunkedIsShorter(rest: Bytes)
    requires |rest| + 2 < USIZE
    ensures |Unchunked(rest)| < |rest| || rest == []
    decreases |rest|
  {
    hide SizeOf, SplitOnce, OrEmpty, GetTo, GetFrom;
    if SplitOnce(rest, CRLF).Some? {
      var line, tail := SplitOnce(rest, CRLF).value.0, SplitOnce(rest, CRLF).value.1;
      var size := SizeOf(line);
      SplitIsShorter(rest, size);
      UnchunksNothing();
      UnchunkedIsShorter(OrEmpty(GetFrom(tail, Past(size))));
    }
  }

  lemma SplitIsShorter(rest: Bytes, size: nat)
    requires SplitOnce(rest, CRLF).Some? && |rest| + 2 < USIZE && size < USIZE
    ensures var tail := SplitOnce(rest, CRLF).value.1;
      |OrEmpty(GetTo(tail, size))| + |OrEmpty(GetFrom(tail, Past(size)))| < |rest|
  {
  }

  /** A response whose header does not say it is chunked decodes to its body exactly when the body does
      not hold the words either. (No Rust string is as long as a word can count.) */
  lemma PlainResponse(head: Bytes, body: Bytes)
    requires |body| + 2 < USIZE
    requires !SaysChunked(head) && forall i: nat | i < |head| :: !At(head + BLANK_LINE, BLANK_LINE, i)
    ensures Decoded(Response(head, body)) == body <==> !SaysChunked(body)
  {
    hide CHUNKED, Lower, Unchunked;
    HeadSplits(head, body);
    SaysChunkedSomewhere(head, body);
    UnchunkedIsShorter(body);
    if body == [] {
      NothingSaysChunked(body);
    }
  }

  lemma NothingSaysChunked(body: Bytes)
    requires body == []
    ensures !SaysChunked(body)
  {
  }

  /** A body that is just those words is lost. */
  lemma BodyIsMistaken(head: Bytes)
    requires forall i: nat | i < |head| :: !At(head + BLANK_LINE, BLANK_LINE, i)
    ensures Decoded(Response(head, CHUNKED)) == []
  {
    hide CHUNKED, Lower, SizeOf;
    HeadSplits(head, CHUNKED);
    SaysChunkedSomewhere(head, CHUNKED);
    WordsAreSaid();
    ChunkedHasNoBreak();
    forall k: nat ensures !At(CHUNKED, CRLF, k) {
      if k + 2 <= |CHUNKED| {
        assert CHUNKED[k] in CHUNKED && CHUNKED[k..k + 2][0] == CHUNKED[k];
      }
    }
    NotFound(CHUNKED, CRLF);
  }

  lemma WordsAreSaid()
    ensures SaysChunked(CHUNKED)
  {
    assert Lower(CHUNKED) == CHUNKED;
    assert CHUNKED[0..0 + |CHUNKED|] == CHUNKED;
    assert At(Lower(CHUNKED), CHUNKED, 0);
  }

  // ----- sizes as servers spell them

  function HexByte(d: nat): byte
    requires d < 16
  {
    if d < 10 then 48 + d else 87 + d
  }

  function HexLine(n: nat): (s: Bytes)
    ensures s != []
  {
    if n < 16 then [HexByte(n)] else HexLine(n / 16) + [HexByte(n % 16)]
  }

  lemma {:induction false} HexLineValue(n: nat)
    ensures HexValue(HexLine(n)) == Some(n)
    ensures forall i | 0 <= i < |HexLine(n)| :: HexDigit(HexLine(n)[i]).Some?
    decreases n
  {
    var s := HexLine(n);
    if n < 16 {
      assert s[..0] == [];
    } else {
      HexLineValue(n / 16);
      assert s[..|s| - 1] == HexLine(n / 16);
    }
  }

  lemma HexDigitsRead(line: Bytes, n: nat)
    requires line != [] && HexValue(line) == Some(n) && n < USIZE
    requires forall i | 0 <= i < |line| :: HexDigit(line[i]).Some?
    ensures SizeOf(line) == n
  {
    hide HexValue;
    assert HexDigit(line[0]).Some? && HexDigit(line[|line| - 1]).Some?;
    assert TrimStart(line) == line && TrimEnd(line) == line;
    assert FromStrRadix16(line) == Some(n);
  }

  lemma HexDigitsHoldNoBreak(line: Bytes)
    requires line != [] && forall i | 0 <= i < |line| :: HexDigit(line[i]).Some?
    ensures (forall k: nat :: !At(line, CRLF, k)) && StartsClean(line + CRLF)
  {
    assert HexDigit(line[0]).Some?;
    forall k: nat ensures !At(line, CRLF, k) {
      if k + 2 <= |line| {
        assert HexDigit(line[k]).Some? && line[k..k + 2][0] == line[k] != CRLF[0];
      }
    }
  }

  /** A size in lower-case hexadecimal is a valid size line, so any non-empty data makes a chunk. */
  lemma HexLineIsSize(data: Bytes)
    requires data != [] && |data| + 2 < USIZE
    ensures Chunk(HexLine(|data|), data).Valid() && StartsClean(HexLine(|data|) + CRLF)
  {
    hide HexLine, HexValue, HexDigit, SizeOf, At;
    var line := HexLine(|data|);
    HexLineValue(|data|);
    HexDigitsRead(line, |data|);
    HexDigitsHoldNoBreak(line);
  }

  /** Such a line, as a server would spell it. */
  lemma HexLineWraps(tail: Bytes)
    requires StartsClean(tail) && |tail| < USIZE - 2
    ensures Unchunked(HexLine(USIZE - 2) + CRLF + tail) == Unchunked(tail)
  {
    hide HexLine, HexValue, HexDigit, SizeOf, At, Unchunked;
    var line := HexLine(USIZE - 2);
    HexLineValue(USIZE - 2);
    HexDigitsRead(line, USIZE - 2);
    HexDigitsHoldNoBreak(line);
    SizeWraps(line, tail);
    assert tail[0..] == tail;
  }
}

/** Byte strings, the little-endian and LEB128 codecs of the ClickHouse wire formats,
    and the reading half that a decoder needs. */
module Wire {

  /** One past the largest u64. */
  const U64: nat := 0x1_0000_0000_0000_0000

  /** isize::MAX: no Rust vector or string is longer. */
  const MAX_LEN: nat := 0x7fff_ffff_ffff_ffff

  type byte = b: int | 0 <= b < 256
  type Bytes = seq<byte>

  /** The UTF-8 bytes of a Rust String. */
  type Text = s: seq<byte> | |s| <= MAX_LEN

  datatype Option<+T> = None | Some(value: T)

  /** A read either panics, as the reference decoder does on input it cannot read,
      or returns a value and the bytes it left. */
  datatype Parsed<+T> = Panic | Got(value: T, rest: Bytes) {
    predicate IsFailure() { Panic? }
    function PropagateFailure<U>(): Parsed<U> requires Panic? { Panic }
    function Extract(): (T, Bytes) requires Got? { (value, rest) }
  }

  function Pow2(n: nat): (p: nat)
    ensures p > 0
  {
    if n == 0 then 1 else 2 * Pow2(n - 1)
  }

  function Pow256(w: nat): (p: nat)
    ensures p > 0
  {
    if w == 0 then 1 else 256 * Pow256(w - 1)
  }

  // ----- fixed-width little-endian integers

  /** The w low bytes of v, least significant first. */
  function LE(w: nat, v: nat): (bs: Bytes)
    ensures |bs| == w
  {
    if w == 0 then [] else [v % 256] + LE(w - 1, v / 256)
  }

  function FromLE(bs: Bytes): (v: nat)
    ensures v < Pow256(|bs|)
  {
    if bs == [] then 0 else bs[0] + 256 * FromLE(bs[1..])
  }

  lemma PowersOf256()
    ensures Pow256(1) == 0x100 && Pow256(2) == 0x1_0000 && Pow256(4) == 0x1_0000_0000 && Pow256(8) == U64
  {
    assert Pow256(4) == 256 * Pow256(3) == 65536 * Pow256(2);
    assert Pow256(6) == 256 * Pow256(5) == 65536 * Pow256(4);
    assert Pow256(8) == 256 * Pow256(7) == 65536 * Pow256(6);
  }

  lemma {:induction false} FromLEInvertsLE(w: nat, v: nat)
    requires v < Pow256(w)
    ensures FromLE(LE(w, v)) == v
  {
    if w > 0 {
      FromLEInvertsLE(w - 1, v / 256);
      assert LE(w, v)[1..] == LE(w - 1, v / 256);
    }
  }

  /** An i64 travels as its two's complement. */
  type I64 = v: int | -0x8000_0000_0000_0000 <= v < 0x8000_0000_0000_0000

  function Twos(v: I64): (u: nat)
    ensures u < U64
  {
    if v < 0 then v + U64 else v
  }

  function FromTwos(u: nat): (v: I64)
    requires u < U64
    ensures Twos(v) == u
  {
    if u >= 0x8000_0000_0000_0000 then u - U64 else u
  }

  // ----- unsigned LEB128

  function Varint(v: nat): (bs: Bytes)
    ensures |bs| > 0
    decreases v
  {
    if v < 128 then [v] else [v % 128 + 128] + Varint(v / 128)
  }

  /** The reader's loop from accumulator `v` and shift `shift`. A shift of 64 or more
      panics; a shift below 64 drops the bits that leave the u64. */
  function VarintFrom(bs: Bytes, v: nat, shift: nat): Parsed<nat> {
    if bs == [] || shift >= 64 then Panic
    else
      var v' := v + Shifted(bs[0] % 128, shift);
      if bs[0] < 128 then Got(v', bs[1..]) else VarintFrom(bs[1..], v', shift + 7)
  }

  /** `bits << shift` in a u64. */
  function Shifted(bits: nat, shift: nat): (n: nat)
    ensures bits * Pow2(shift) < U64 ==> n == bits * Pow2(shift)
  {
    (bits * Pow2(shift)) % U64
  }

  function ReadVarint(bs: Bytes): Parsed<nat> { VarintFrom(bs, 0, 0) }

  lemma Pow2Add7(n: nat)
    ensures Pow2(n + 7) == 128 * Pow2(n)
  {
    assert Pow2(n + 7) == 2 * Pow2(n + 6) == 4 * Pow2(n + 5) == 8 * Pow2(n + 4);
    assert Pow2(n + 4) == 2 * Pow2(n + 3) == 4 * Pow2(n + 2) == 8 * Pow2(n + 1);
  }

  lemma Pow2Beyond64(n: nat)
    requires n >= 64
    ensures Pow2(n) >= U64
  {
    if n == 64 {
      Pow2Add7(1); Pow2Add7(8); Pow2Add7(15); Pow2Add7(22); Pow2Add7(29);
      Pow2Add7(36); Pow2Add7(43); Pow2Add7(50); Pow2Add7(57);
    } else {
      Pow2Beyond64(n - 1);
    }
  }

  /** Splitting off the low seven bits of x keeps the value the loop is building. */
  lemma SevenBits(x: nat, p: nat)
    requires x >= 128
    ensures x % 128 * p + x / 128 * (128 * p) == x * p
    ensures 0 <= x % 128 * p <= x * p
    ensures 128 * p <= x / 128 * (128 * p)
  {
    var q, r := x / 128, x % 128;
    assert x == 128 * q + r;
    assert x * p == 128 * q * p + r * p;
    assert q * (128 * p) == 128 * q * p;
    assert q * (128 * p) == (q - 1) * (128 * p) + 128 * p;
    assert (q - 1) * (128 * p) >= 0;
  }

  lemma {:induction false} VarintFromInverts(x: nat, rest: Bytes, v: nat, shift: nat)
    requires x * Pow2(shift) < U64 && shift < 64
    ensures VarintFrom(Varint(x) + rest, v, shift) == Got(v + x * Pow2(shift), rest)
    decreases x
  {
    var bs := Varint(x) + rest;
    if x < 128 {
      assert bs[1..] == rest;
    } else {
      var low := x % 128;
      SevenBits(x, Pow2(shift));
      assert bs[0] % 128 == low && bs[1..] == Varint(x / 128) + rest;
      Pow2Add7(shift);
      if shift + 7 >= 64 { Pow2Beyond64(shift + 7); }
      VarintFromInverts(x / 128, rest, v + Shifted(low, shift), shift + 7);
    }
  }

  lemma VarintRoundTrip(x: nat, rest: Bytes)
    requires x < U64
    ensures ReadVarint(Varint(x) + rest) == Got(x, rest)
  {
    VarintFromInverts(x, rest, 0, 0);
  }

  // ----- strings, runs and fixed-width reads

  function Str(s: Text): Bytes { Varint(|s|) + s }

  function Take(n: nat, bs: Bytes): Parsed<Bytes> {
    if n > |bs| then Panic else Got(bs[..n], bs[n..])
  }

  function ReadStr(bs: Bytes): Parsed<Text> {
    var (len, r) :- ReadVarint(bs);
    var (s, r') :- Take(len, r);
    if len > MAX_LEN then Panic else Got(s, r')
  }

  function ReadLE(w: nat, bs: Bytes): (r: Parsed<nat>)
    ensures r.Got? ==> r.value < Pow256(w)
  {
    var (s, r) :- Take(w, bs);
    Got(FromLE(s), r)
  }

  function ReadWord(bs: Bytes): (r: Parsed<nat>)
    ensures r.Got? ==> r.value < U64
  {
    PowersOf256();
    ReadLE(8, bs)
  }

  lemma TakeExact(s: Bytes, rest: Bytes)
    ensures Take(|s|, s + rest) == Got(s, rest)
  {
    assert (s + rest)[..|s|] == s && (s + rest)[|s|..] == rest;
  }

  lemma StrRoundTrip(s: Text, rest: Bytes)
    ensures ReadStr(Str(s) + rest) == Got(s, rest)
  {
    assert Str(s) + rest == Varint(|s|) + (s + rest);
    VarintRoundTrip(|s|, s + rest);
    TakeExact(s, rest);
  }

  lemma LERoundTrip(w: nat, v: nat, rest: Bytes)
    requires v < Pow256(w)
    ensures ReadLE(w, LE(w, v) + rest) == Got(v, rest)
  {
    TakeExact(LE(w, v), rest);
    FromLEInvertsLE(w, v);
  }

  lemma WordRoundTrip(v: nat, rest: Bytes)
    requires v < U64
    ensures ReadWord(LE(8, v) + rest) == Got(v, rest)
  {
    PowersOf256();
    LERoundTrip(8, v, rest);
  }

  lemma Assoc(a: Bytes, b: Bytes, c: Bytes)
    ensures (a + b) + c == a + (b + c)
  {}

  lemma Regroup(a: Bytes, b: Bytes, c: Bytes, d: Bytes, e: Bytes, rest: Bytes)
    ensures a + b + c + d + e + rest == a + (b + (c + (d + (e + rest))))
  {}

  /** One encoding after another. */
  function Each<T>(f: T -> Bytes, xs: seq<T>): Bytes {
    if xs == [] then [] else f(xs[0]) + Each(f, xs[1..])
  }

  lemma EachCons<T>(f: T -> Bytes, xs: seq<T>)
    requires xs != []
    ensures Each(f, xs) == f(xs[0]) + Each(f, xs[1..])
  {}

  function ReadMany<T>(n: nat, p: Bytes -> Parsed<T>, bs: Bytes): (r: Parsed<seq<T>>)
    ensures r.Got? ==> |r.value| == n
  {
    if n == 0 then Got([], bs)
    else
      var (x, r1) :- p(bs);
      var (xs, r2) :- ReadMany(n - 1, p, r1);
      Got([x] + xs, r2)
  }

  lemma {:induction false} ReadManyAll<T>(n: nat, p: Bytes -> Parsed<T>, bs: Bytes, ok: T -> bool)
    requires forall b | p(b).Got? :: ok(p(b).value)
    ensures ReadMany(n, p, bs).Got? ==> forall i | 0 <= i < n :: ok(ReadMany(n, p, bs).value[i])
  {
    if n > 0 && p(bs).Got? { ReadManyAll(n - 1, p, p(bs).rest, ok); }
  }

  lemma {:induction false} EachAppend<T>(f: T -> Bytes, xs: seq<T>, x: T)
    ensures Each(f, xs + [x]) == Each(f, xs) + f(x)
  {
    if xs == [] {
      assert xs + [x] == [x];
    } else {
      assert (xs + [x])[1..] == xs[1..] + [x];
      EachAppend(f, xs[1..], x);
    }
  }

  /** What a loop over xs has written grows by the next element's bytes. */
  lemma EachNext<T>(f: T -> Bytes, xs: seq<T>, i: nat)
    requires i < |xs|
    ensures Each(f, xs[..i + 1]) == Each(f, xs[..i]) + f(xs[i])
  {
    EachAppend(f, xs[..i], xs[i]);
    assert xs[..i + 1] == xs[..i] + [xs[i]];
  }

  function Map<S, T>(g: S -> T, xs: seq<S>): (ys: seq<T>)
    ensures |ys| == |xs| && forall i | 0 <= i < |xs| :: ys[i] == g(xs[i])
  {
    seq(|xs|, i requires 0 <= i < |xs| => g(xs[i]))
  }

  lemma MapAppend<S, T>(g: S -> T, xs: seq<S>, x: S)
    ensures Map(g, xs + [x]) == Map(g, xs) + [g(x)]
  {}

  /** If one element is read back from its own bytes, so is a run of them. */
  lemma {:induction false} ManyRoundTrip<S, T(!new)>(f: S -> Bytes, g: S -> T, p: Bytes -> Parsed<T>, xs: seq<S>,
                                         rest: Bytes)
    requires forall i, r | 0 <= i < |xs| :: p(f(xs[i]) + r) == Got(g(xs[i]), r)
    ensures ReadMany(|xs|, p, Each(f, xs) + rest) == Got(Map(g, xs), rest)
  {
    if xs == [] {
      assert Each(f, xs) + rest == rest;
    } else {
      var tail := xs[1..];
      assert Each(f, xs) + rest == f(xs[0]) + (Each(f, tail) + rest);
      forall i, r | 0 <= i < |tail| ensures p(f(tail[i]) + r) == Got(g(tail[i]), r) {
        assert tail[i] == xs[i + 1];
      }
      ManyRoundTrip(f, g, p, tail, rest);
      assert Map(g, xs) == [g(xs[0])] + Map(g, tail);
    }
  }
}

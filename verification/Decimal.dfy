/** Decimal numerals as digit sequences, most significant first. */
module Decimal {
  import opened Wire

  type digit = d: int | 0 <= d < 10

  function Digits(n: nat): (ds: seq<digit>)
    ensures |ds| > 0 && (|ds| > 1 ==> ds[0] != 0)
    decreases n
  {
    if n < 10 then [n] else Digits(n / 10) + [n % 10]
  }

  /** The numeral as text. */
  function Numeral(n: nat): string {
    var ds := Digits(n);
    seq(|ds|, i requires 0 <= i < |ds| => '0' + ds[i] as char)
  }

  function ValueOf(ds: seq<digit>): nat {
    if ds == [] then 0 else 10 * ValueOf(ds[..|ds| - 1]) + ds[|ds| - 1]
  }

  lemma {:induction false} ValueOfDigits(n: nat)
    ensures ValueOf(Digits(n)) == n
    decreases n
  {
    var ds := Digits(n);
    if n >= 10 {
      assert ds[..|ds| - 1] == Digits(n / 10);
      ValueOfDigits(n / 10);
    }
  }

  /** The value of decimal digits, unless one is not a digit; at least one is needed. */
  function ReadNumeral(s: string): Option<nat> {
    if s == [] then None
    else
      var d := DigitOf(s[|s| - 1]);
      if d.None? then None
      else if |s| == 1 then d
      else
        match ReadNumeral(s[..|s| - 1])
        case None => None
        case Some(high) => Some(10 * high + d.value)
  }

  function DigitOf(c: char): Option<nat> {
    match c
    case '0' => Some(0)
    case '1' => Some(1)
    case '2' => Some(2)
    case '3' => Some(3)
    case '4' => Some(4)
    case '5' => Some(5)
    case '6' => Some(6)
    case '7' => Some(7)
    case '8' => Some(8)
    case '9' => Some(9)
    case _ => None
  }

  lemma {:induction false} NumeralReads(n: nat)
    ensures ReadNumeral(Numeral(n)) == Some(n) && (|Numeral(n)| > 1 ==> Numeral(n)[0] != '0')
    decreases n
  {
    var t := Numeral(n);
    if n >= 10 {
      NumeralReads(n / 10);
      assert t[..|t| - 1] == Numeral(n / 10);
    }
  }

  /** Decimal digits, a minus sign before those of a negative number, no zero in front. */
  predicate SpellsInt(s: string, n: int) {
    var digits := if n < 0 && s != [] && s[0] == '-' then s[1..] else s;
    && ReadNumeral(digits) == Some(if n < 0 then -n else n)
    && (|digits| > 1 ==> digits[0] != '0') && (n < 0 ==> digits != s)
  }

  lemma NumeralSpells(s: string, n: int)
    requires s == (if n < 0 then "-" else "") + Numeral(if n < 0 then -n else n)
    ensures SpellsInt(s, n)
  {
    NumeralReads(if n < 0 then -n else n);
    if n < 0 {
      assert s[1..] == Numeral(-n);
    } else {
      assert s == Numeral(n);
    }
  }

  /** `{n:0width$}`: the numeral padded on the left with zeros to `width` digits. */
  function Padded(width: nat, n: nat): (ds: seq<digit>)
    ensures |ds| >= width
  {
    var ds := Digits(n);
    if |ds| >= width then ds else seq(width - |ds|, _ => 0) + ds
  }

  function Pow10(k: nat): (p: nat)
    ensures p > 0
  {
    if k == 0 then 1 else 10 * Pow10(k - 1)
  }

  lemma TimesTen(x: nat, p: nat, v: nat, d: nat)
    ensures 10 * (x * p + v) + d == x * (10 * p) + (10 * v + d)
  {
    assert 10 * (x * p) == x * (10 * p);
  }

  lemma ValueOfLast(ds: seq<digit>, d: digit)
    ensures ValueOf(ds + [d]) == 10 * ValueOf(ds) + d
  {
    assert (ds + [d])[..|ds|] == ds;
  }

  lemma {:induction false} ValueOfAppend(a: seq<digit>, b: seq<digit>)
    ensures ValueOf(a + b) == ValueOf(a) * Pow10(|b|) + ValueOf(b)
    decreases |b|
  {
    hide ValueOf;
    if b == [] {
      assert a + b == a;
      ValueOfNothing();
    } else {
      var n := |b| - 1;
      var init, d := b[..n], b[n];
      assert b == init + [d] && a + b == (a + init) + [d];
      ValueOfAppend(a, init);
      ValueOfLast(a + init, d);
      ValueOfLast(init, d);
      TimesTen(ValueOf(a), Pow10(n), ValueOf(init), d);
    }
  }

  lemma ValueOfNothing()
    ensures ValueOf([]) == 0
  {
  }

  lemma {:induction false} ValueOfZeros(k: nat, ds: seq<digit>)
    ensures ValueOf(seq(k, _ => 0) + ds) == ValueOf(ds)
  {
    var zeros := seq(k, _ => 0);
    if k == 0 {
      assert zeros + ds == ds;
    } else {
      var z := seq(k - 1, _ => 0);
      assert zeros + ds == z + ([0] + ds);
      ValueOfZeros(k - 1, [0] + ds);
      ValueOfAppend([0], ds);
      assert ValueOf([0]) == 10 * ValueOf([0][..0]) + 0;
    }
  }

  lemma ValueOfPadded(width: nat, n: nat)
    ensures ValueOf(Padded(width, n)) == n
  {
    ValueOfDigits(n);
    if |Digits(n)| < width { ValueOfZeros(width - |Digits(n)|, Digits(n)); }
  }

  /** A number below 10^k needs at most k digits, so its padded form has exactly k. */
  lemma {:induction false} DigitsFit(n: nat, k: nat)
    requires k > 0 && n < Pow10(k)
    ensures |Digits(n)| <= k
    decreases n
  {
    assert Pow10(k) == 10 * Pow10(k - 1);
    if n >= 10 {
      DigitsFit(n / 10, k - 1);
    }
  }
}

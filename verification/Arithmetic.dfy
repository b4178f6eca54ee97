/** Multiples and division by a variable, by induction rather than by nonlinear search. */
module Arithmetic {

  function Quotient(a: nat, p: nat): nat
    requires p > 0
  {
    a / p
  }

  function Remainder(a: nat, p: nat): (r: nat)
    requires p > 0
    ensures r < p
  {
    a % p
  }

  lemma QuotientAndRemainder(a: nat, p: nat)
    requires p > 0
    ensures a == Quotient(a, p) * p + Remainder(a, p)
  {
    assert a == p * (a / p) + a % p;
  }

  lemma {:induction false} LaterIsFar(n: nat, k: nat, l: nat)
    requires k > l
    ensures k * n >= l * n + n
    decreases k
  {
    assert k * n == (k - 1) * n + n;
    if k > l + 1 {
      LaterIsFar(n, k - 1, l);
    }
  }

  lemma DivisionBounds(x: nat, n: nat)
    requires n > 0
    ensures x == x / n * n + x % n && x % n < n
  {
    assert x == n * (x / n) + x % n;
  }

  lemma DivisionIsUnique(x: nat, n: nat, q: nat, r: nat)
    requires n > 0 && r < n && x == q * n + r
    ensures x / n == q && x % n == r
  {
    DivisionBounds(x, n);
    if x / n > q {
      LaterIsFar(n, x / n, q);
    } else if x / n < q {
      LaterIsFar(n, q, x / n);
    }
  }

  lemma PlaceBelow(n: nat, k: nat, i: nat, q: nat, r: nat)
    requires n > 0 && i < n && r < n
    ensures k * n + i < q * n + r <==> k < q || (k == q && i < r)
  {
    if k < q {
      LaterIsFar(n, q, k);
    } else if k > q {
      LaterIsFar(n, k, q);
    }
  }
}

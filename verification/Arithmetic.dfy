/** Remainders by a variable divisor, and products, kept linear for the solver. */
module Arithmetic {

  /** `n % m`, by subtraction. */
  function Rem(n: nat, m: nat): (r: nat)
    requires 0 < m
    ensures r < m && r <= n
  {
    if n < m then n else Rem(n - m, m)
  }

  lemma {:induction false} NextRem(n: nat, m: nat)
    requires 0 < m
    ensures Rem(n + 1, m) == if Rem(n, m) + 1 == m then 0 else Rem(n, m) + 1
  {
    if n >= m {
      NextRem(n - m, m);
    }
  }

  lemma {:induction false} NextMultiple(q: nat, m: nat)
    ensures m * (q + 1) == m * q + m
  {
  }

  lemma {:induction false} RemDivides(n: nat, m: nat) returns (q: nat)
    requires 0 < m
    ensures n == m * q + Rem(n, m)
  {
    if n < m {
      q := 0;
    } else {
      var p := RemDivides(n - m, m);
      NextMultiple(p, m);
      q := p + 1;
    }
  }

  lemma {:induction false} TimesAway(m: nat, k: int)
    ensures k < 0 ==> m * k <= 0 - m
    ensures k > 0 ==> m * k >= m
  {
  }

  /** A number is divided in one way only. */
  lemma {:induction false} OneRemainder(m: nat, q: nat, r: nat, q': nat, r': nat)
    requires r < m && r' < m && m * q + r == m * q' + r'
    ensures r == r'
  {
    assert m * (q - q') == r' - r;
    TimesAway(m, q - q');
  }

  lemma {:induction false} RemIsRemainder(n: nat, m: nat)
    requires 0 < m
    ensures Rem(n, m) == n % m
  {
    var q := RemDivides(n, m);
    OneRemainder(m, q, Rem(n, m), n / m, n % m);
  }

  /** A product, one addition at a time. */
  function Times(n: nat, k: nat): nat {
    if n == 0 then 0 else Times(n - 1, k) + k
  }

  lemma {:induction false} TimesIsProduct(n: nat, k: nat)
    ensures Times(n, k) == n * k
  {
    if n > 0 {
      TimesIsProduct(n - 1, k);
    }
  }

  lemma {:induction false} TimesMonotone(m: nat, n: nat, k: nat)
    requires m <= n
    ensures Times(m, k) <= Times(n, k)
    decreases n
  {
    if m < n {
      TimesMonotone(m, n - 1, k);
    }
  }
}

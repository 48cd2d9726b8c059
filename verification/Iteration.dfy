/** Applying a function a number of times. */
module Iteration {

  function Iter<T>(f: T -> T, n: nat, v: T): T { if n == 0 then v else f(Iter(f, n - 1, v)) }

  lemma {:induction false} IterSum<T>(f: T -> T, m: nat, n: nat, v: T)
    ensures Iter(f, m, Iter(f, n, v)) == Iter(f, m + n, v)
  {
    if m > 0 {
      IterSum(f, m - 1, n, v);
    }
  }

  ghost predicate Commute<T(!new)>(f: T -> T, g: T -> T) { forall x {:trigger g(f(x))} :: g(f(x)) == f(g(x)) }

  lemma {:induction false} IterCommute<T(!new)>(f: T -> T, g: T -> T, n: nat, v: T)
    requires Commute(f, g)
    ensures g(Iter(f, n, v)) == Iter(f, n, g(v))
  {
    if n > 0 {
      IterCommute(f, g, n - 1, v);
      assert g(f(Iter(f, n - 1, v))) == f(g(Iter(f, n - 1, v)));
    }
  }

  ghost predicate Additive<T(!new)>(f: T -> T, plus: (T, T) -> T) {
    forall x, y {:trigger f(plus(x, y))} :: f(plus(x, y)) == plus(f(x), f(y))
  }

  lemma {:induction false} IterAdditive<T(!new)>(f: T -> T, plus: (T, T) -> T, n: nat, a: T, b: T)
    requires Additive(f, plus)
    ensures Iter(f, n, plus(a, b)) == plus(Iter(f, n, a), Iter(f, n, b))
  {
    if n > 0 {
      IterAdditive(f, plus, n - 1, a, b);
      assert f(plus(Iter(f, n - 1, a), Iter(f, n - 1, b))) == plus(f(Iter(f, n - 1, a)), f(Iter(f, n - 1, b)));
    }
  }

  lemma {:induction false} IterFixed<T>(f: T -> T, n: nat, v: T)
    requires f(v) == v
    ensures Iter(f, n, v) == v
  {
    if n > 0 {
      IterFixed(f, n - 1, v);
    }
  }

  ghost predicate Injective<T(!new)>(f: T -> T) { forall x, y {:trigger f(x), f(y)} :: f(x) == f(y) ==> x == y }

  lemma {:induction false} IterInjective<T(!new)>(f: T -> T, n: nat, a: T, b: T)
    requires Injective(f) && Iter(f, n, a) == Iter(f, n, b)
    ensures a == b
  {
    if n > 0 {
      assert f(Iter(f, n - 1, a)) == f(Iter(f, n - 1, b));
      IterInjective(f, n - 1, a, b);
    }
  }

  /** A period of v may be dropped any number of times. */
  lemma {:induction false} IterPeriod<T>(f: T -> T, p: nat, k: nat, n: nat, v: T)
    requires Iter(f, p, v) == v
    ensures Iter(f, k * p + n, v) == Iter(f, n, v)
    decreases k
  {
    if k > 0 {
      IterPeriod(f, p, k - 1, n, v);
      IterSum(f, (k - 1) * p + n, p, v);
      assert (k - 1) * p + n + p == k * p + n;
    }
  }

  // ---------- Periods ----------

  lemma {:induction false} LeastPeriod<T>(f: T -> T, v: T, d: nat) returns (m: nat)
    requires 0 < d && Iter(f, d, v) == v
    ensures 0 < m <= d && Iter(f, m, v) == v
    ensures forall k {:trigger Iter(f, k, v)} :: 0 < k < m ==> Iter(f, k, v) != v
  {
    if k :| 0 < k < d && Iter(f, k, v) == v {
      m := LeastPeriod(f, v, k);
    } else {
      m := d;
    }
  }

  lemma PeriodDivides<T>(f: T -> T, v: T, m: nat, p: nat, q: nat, r: nat)
    requires Iter(f, m, v) == v && Iter(f, p, v) == v && p == q * m + r && r < m
    requires forall k {:trigger Iter(f, k, v)} :: 0 < k < m ==> Iter(f, k, v) != v
    ensures r == 0
  {
    IterPeriod(f, m, q, r, v);
  }

  lemma DivisorPeriod<T>(f: T -> T, v: T, m: nat, p: nat, q: nat)
    requires Iter(f, m, v) == v && p == q * m
    ensures Iter(f, p, v) == v
  {
    IterPeriod(f, m, q, 0, v);
  }

  /** The proper divisors of 1023 = 3 * 11 * 31 divide 341, 93 or 33. */
  lemma ProperDivisors(m: nat, q: nat) returns (a: nat, k: nat)
    requires 0 < m < 1023 && 1023 == m * q
    ensures (340 < a < 342 || 92 < a < 94 || 32 < a < 34) && a == k * m
  {
    if m < 32 {
      SmallDivisors(m, q);
      a := if m == 31 then 93 else 33;
      k := if m == 31 then 3 else if m == 11 then 3 else if m == 3 then 11 else 33;
    } else {
      SmallDivisors(q, m);
      a, k := m, 1;
    }
  }

  lemma SmallDivisors(m: nat, q: nat)
    requires 0 < m < 32 && 1023 == m * q
    ensures m in {1, 3, 11, 31}
  {
    assert m != 2 && m != 4 && m != 5 && m != 6 && m != 7 && m != 8 && m != 9 && m != 10;
    assert m != 12 && m != 13 && m != 14 && m != 15 && m != 16 && m != 17 && m != 18 && m != 19 && m != 20;
    assert m != 21 && m != 22 && m != 23 && m != 24 && m != 25 && m != 26 && m != 27 && m != 28 && m != 29 && m != 30;
  }

  ghost predicate NoDivisor<T>(f: T -> T, v: T, p: nat, m: nat, q: nat) {
    0 < m < p && p == q * m ==> Iter(f, m, v) != v
  }

  /** A period none of whose proper divisors is one is the least. */
  lemma NoSmallerPeriod<T>(f: T -> T, v: T, p: nat, d: nat)
    requires 0 < d < p && Iter(f, p, v) == v
    requires forall m: nat, q: nat {:trigger NoDivisor(f, v, p, m, q)} :: NoDivisor(f, v, p, m, q)
    ensures Iter(f, d, v) != v
  {
    var m, q := LeastDivides(f, v, p, d);
    assert NoDivisor(f, v, p, m, q);
  }

  lemma LeastDivides<T>(f: T -> T, v: T, p: nat, d: nat) returns (m: nat, q: nat)
    requires 0 < d < p && Iter(f, p, v) == v
    ensures Iter(f, d, v) == v ==> 0 < m < p && p == q * m && Iter(f, m, v) == v
  {
    m, q := 1, 0;
    if Iter(f, d, v) == v {
      m := LeastPeriod(f, v, d);
      var r;
      q, r := Quotient(p, m);
      PeriodDivides(f, v, m, p, q, r);
    }
  }

  lemma Quotient(p: nat, m: nat) returns (q: nat, r: nat)
    requires 0 < m
    ensures p == q * m + r && r < m
  {
    q, r := p / m, p % m;
  }

  lemma NotTheLeast<T>(f: T -> T, v: T, p: nat, a: nat, b: nat, c: nat, m: nat, q: nat)
    requires 1022 < p < 1024 && 340 < a < 342 && 92 < b < 94 && 32 < c < 34 && 0 < m < p && p == q * m
    requires Iter(f, a, v) != v && Iter(f, b, v) != v && Iter(f, c, v) != v
    ensures NoDivisor(f, v, p, m, q)
  {
    var n, k := ProperDivisors(m, q);
    if Iter(f, m, v) == v {
      DivisorPeriod(f, v, m, n, k);
    }
  }

  lemma IterMod<T>(f: T -> T, v: T, p: nat, n: nat)
    requires 0 < p && Iter(f, p, v) == v
    ensures Iter(f, n % p, v) == Iter(f, n, v)
  {
    IterPeriod(f, p, n / p, n % p, v);
    assert (n / p) * p + n % p == n;
  }

  /** Iterates that agree are a period apart. */
  lemma IterApart<T(!new)>(f: T -> T, v: T, i: nat, j: nat)
    requires Injective(f) && i <= j && Iter(f, i, v) == Iter(f, j, v)
    ensures Iter(f, j - i, v) == v
  {
    IterSum(f, i, j - i, v);
    IterInjective(f, i, Iter(f, j - i, v), v);
  }
}

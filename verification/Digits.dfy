/** Numbers written in a base, least significant digit first, and how long they get. */
module Digits {
  import Limbs

  function Pow(b: nat, n: nat): nat { if n == 0 then 1 else b * Pow(b, n - 1) }

  /** The digits of v without leading zeros. */
  function Canon(v: nat, b: nat): (d: seq<nat>)
    requires b >= 2
  {
    if v == 0 then [] else [v % b] + Canon(v / b, b)
  }

  function Val(d: seq<nat>, b: nat): nat { if d == [] then 0 else d[0] + b * Val(d[1..], b) }

  lemma {:induction false} ValOfCanon(v: nat, b: nat)
    requires b >= 2
    ensures Val(Canon(v, b), b) == v
  {
    if v > 0 {
      Smaller(v, b);
      ValOfCanon(v / b, b);
      assert Canon(v, b)[1..] == Canon(v / b, b);
    }
  }

  lemma Smaller(v: nat, b: nat)
    requires b >= 2 && v > 0
    ensures 0 <= v / b < v && v == b * (v / b) + v % b
  {
  }

  /** Digits below b, and none beyond a non-zero leading one. */
  predicate Proper(d: seq<nat>, b: nat) {
    (forall i :: 0 <= i < |d| ==> d[i] < b) && (d != [] ==> d[|d| - 1] != 0)
  }

  lemma {:induction false} CanonProper(v: nat, b: nat)
    requires b >= 2
    ensures Proper(Canon(v, b), b)
  {
    if v > 0 {
      Smaller(v, b);
      CanonProper(v / b, b);
    }
  }

  lemma {:induction false} CanonOfVal(d: seq<nat>, b: nat)
    requires b >= 2 && Proper(d, b)
    ensures Canon(Val(d, b), b) == d
  {
    if d != [] {
      var rest := Val(d[1..], b);
      assert Proper(d[1..], b);
      CanonOfVal(d[1..], b);
      Join(d[0], rest, b);
      if d[1..] != [] {
        assert rest > 0;
      }
    }
  }

  lemma Join(x: nat, rest: nat, b: nat)
    requires b >= 2 && x < b
    ensures (x + b * rest) % b == x && (x + b * rest) / b == rest && x + b * rest >= rest
  {
    Limbs.ModUnique(x + b * rest, b, rest, x);
    assert b * rest >= rest;
  }

  // ---------- Powers ----------

  lemma {:induction false} PowPositive(b: nat, n: nat)
    requires b > 0
    ensures Pow(b, n) > 0
  {
    if n > 0 {
      PowPositive(b, n - 1);
      Limbs.MulGrows(b, Pow(b, n - 1));
    }
  }

  lemma {:induction false} PowSum(b: nat, m: nat, n: nat)
    ensures Pow(b, m + n) == Pow(b, m) * Pow(b, n)
  {
    if m > 0 {
      PowSum(b, m - 1, n);
      assert b * (Pow(b, m - 1) * Pow(b, n)) == Pow(b, m) * Pow(b, n);
    }
  }

  lemma {:induction false} PowProduct(b: nat, m: nat, n: nat)
    ensures Pow(Pow(b, m), n) == Pow(b, m * n)
    decreases n
  {
    if n > 0 {
      PowProduct(b, m, n - 1);
      PowSum(b, m, m * (n - 1));
      assert m + m * (n - 1) == m * n;
    } else {
      assert m * n == 0;
    }
  }

  lemma {:induction false} PowBase(a: nat, b: nat, n: nat)
    requires a <= b
    ensures Pow(a, n) <= Pow(b, n)
  {
    if n > 0 {
      PowBase(a, b, n - 1);
      Limbs.MulMono(a, Pow(a, n - 1), b, Pow(b, n - 1));
    }
  }

  lemma PowExponent(b: nat, m: nat, n: nat)
    requires b > 0 && m <= n
    ensures Pow(b, m) <= Pow(b, n)
  {
    PowSum(b, m, n - m);
    PowPositive(b, m);
    PowPositive(b, n - m);
    Limbs.MulGrows(Pow(b, m), Pow(b, n - m));
  }

  lemma {:induction false} PowStrict(a: nat, b: nat, n: nat)
    requires a < b && n > 0
    ensures Pow(a, n) < Pow(b, n)
  {
    if n > 1 {
      PowStrict(a, b, n - 1);
      StrictProduct(a, Pow(a, n - 1), b, Pow(b, n - 1));
    }
  }

  lemma StrictProduct(a: nat, x: nat, b: nat, y: nat)
    requires a < b && x < y
    ensures a * x < b * y
  {
    assert a * x <= a * y;
    Limbs.MulGrows(y, b - a);
    assert b * y == a * y + (b - a) * y;
    assert (b - a) * y == y * (b - a);
  }

  lemma PowersOrdered(a: nat, p: nat, b: nat, q: nat, n: nat, s: nat, pn: nat, qn: nat, ps: nat)
    requires b > 0 && pn == p * n && qn == q * n && ps == p * s && Pow(a, p) <= Pow(b, q) && qn <= ps
    ensures Pow(a, pn) <= Pow(b, ps)
  {
    PowProduct(a, p, n);
    PowProduct(b, q, n);
    PowBase(Pow(a, p), Pow(b, q), n);
    PowExponent(b, qn, ps);
  }

  lemma PowRoot(x: nat, y: nat, p: nat)
    requires p > 0 && Pow(x, p) <= Pow(y, p)
    ensures x <= y
  {
    if x > y {
      PowStrict(y, x, p);
    }
  }

  /** From a^p <= b^q follows a^n <= b^s whenever q n <= p s. */
  lemma RootBound(a: nat, p: nat, b: nat, q: nat, n: nat, s: nat, pn: nat, qn: nat, ps: nat)
    requires b > 0 && p > 0 && pn == p * n && qn == q * n && ps == p * s && Pow(a, p) <= Pow(b, q) && qn <= ps
    ensures Pow(a, n) <= Pow(b, s)
  {
    PowersOrdered(a, p, b, q, n, s, pn, qn, ps);
    PowSwapped(a, n, p, pn);
    PowSwapped(b, s, p, ps);
    PowRoot(Pow(a, n), Pow(b, s), p);
  }

  lemma PowSwapped(a: nat, n: nat, p: nat, pn: nat)
    requires pn == p * n
    ensures Pow(Pow(a, n), p) == Pow(a, pn)
  {
    PowProduct(a, n, p);
    assert n * p == p * n;
  }

  /** A number below b^s has at most s digits. */
  lemma {:induction false} CanonLength(v: nat, b: nat, s: nat)
    requires b >= 2 && v < Pow(b, s)
    ensures |Canon(v, b)| <= s
    decreases s
  {
    if v > 0 {
      Smaller(v, b);
      QuotientBelow(v, b, Pow(b, s - 1));
      CanonLength(v / b, b, s - 1);
    }
  }

  lemma QuotientBelow(v: nat, b: nat, p: nat)
    requires b >= 2 && v < b * p
    ensures v / b < p
  {
    var q := v / b;
    if q >= p {
      Limbs.MulMono(b, p, b, q);
    }
  }

  lemma {:induction false} CanonGrows(v: nat, w: nat, b: nat)
    requires b >= 2 && v <= w
    ensures |Canon(v, b)| <= |Canon(w, b)|
    decreases w
  {
    if v > 0 {
      Smaller(v, b);
      Smaller(w, b);
      QuotientBelow(v, b, w / b + 1);
      assert b * (w / b + 1) > w;
      CanonGrows(v / b, w / b, b);
    }
  }
}

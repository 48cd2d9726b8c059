/** e is a primitive element of GF(1024). */
module Bech32Order {
  import opened Bech32Field
  import opened Bech32Ext
  import opened Bech32Powers
  import opened Iteration
  import opened Counting

  lemma Injection()
    ensures Injective(TimesE)
  {
    forall x, y | TimesE(x) == TimesE(y) ensures x == y {
      BitsAgree(x.hi);
      BitsAgree(y.hi);
      TwentyThreeInjective(x.hi, y.hi);
      AddCancel(Nine(x.hi), x.lo, y.lo);
    }
  }

  lemma TwentyThreeInjective(a: F32, b: F32)
    requires TwentyThreeBits(a) == TwentyThreeBits(b)
    ensures a == b
  {
  }

  lemma AddCancel(a: F32, b: F32, c: F32)
    requires Add(a, b) == Add(a, c)
    ensures b == c
  {
  }

  lemma UnitPeriod(p: nat)
    requires 1022 < p < 1024
    ensures Pow(p) == UNIT
  {
    PowClimbs();
    Power1023(Pow, p);
  }

  lemma NotPeriods(a: nat, b: nat, c: nat)
    requires 340 < a < 342 && 92 < b < 94 && 32 < c < 34
    ensures Pow(a) != UNIT && Pow(b) != UNIT && Pow(c) != UNIT
  {
    PowClimbs();
    Power341(Pow, a);
    Power93(Pow, b);
    Power33(Pow, c);
  }

  lemma SmallOrder(p: nat, d: nat)
    requires 1022 < p < 1024 && 0 < d < p
    ensures Pow(d) != UNIT
  {
    var a: nat, b: nat, c: nat :| 340 < a < 342 && 92 < b < 94 && 32 < c < 34;
    UnitPeriod(p);
    NotPeriods(a, b, c);
    forall m: nat, q: nat ensures NoDivisor(TimesE, UNIT, p, m, q) {
      if 0 < m < p && p == q * m {
        NotTheLeast(TimesE, UNIT, p, a, b, c, m, q);
      }
    }
    NoSmallerPeriod(TimesE, UNIT, p, d);
  }

  /** No power of e between the 0th and the 1023rd is 1. */
  lemma OrderExact(d: nat)
    requires 0 < d < 1023
    ensures Pow(d) != UNIT
  {
    SmallOrder(1023, d);
  }

  lemma PowModAny(p: nat, n: nat)
    requires 1022 < p < 1024
    ensures Pow(n % p) == Pow(n)
  {
    UnitPeriod(p);
    IterMod(TimesE, UNIT, p, n);
  }

  lemma PowMod(n: nat)
    ensures Pow(n % 1023) == Pow(n)
  {
    PowModAny(1023, n);
  }

  lemma PowInjective(i: nat, j: nat)
    requires i <= j < 1023 && Pow(i) == Pow(j)
    ensures i == j
  {
    Injection();
    IterApart(TimesE, UNIT, i, j);
    if i < j {
      OrderExact(j - i);
    }
  }

  /** Equal powers have exponents equal modulo 1023. */
  lemma PowEqual(i: nat, j: nat)
    ensures Pow(i) == Pow(j) <==> i % 1023 == j % 1023
  {
    var r, s := i % 1023, j % 1023;
    PowMod(i);
    PowMod(j);
    if Pow(r) == Pow(s) {
      if r <= s {
        PowInjective(r, s);
      } else {
        PowInjective(s, r);
      }
    }
  }

  lemma PowNonZero(n: nat)
    ensures Pow(n) != NOUGHT
  {
    if Pow(n) == NOUGHT {
      ShiftZero(n);
      Injection();
      IterInjective(TimesE, n, UNIT, NOUGHT);
    }
  }

  // ---------- Every non-zero element is a power ----------

  function Index(v: F1024): (n: nat)
    ensures n < 1024
  {
    32 * Code(v.hi) + Code(v.lo)
  }

  lemma PairsDiffer(a: nat, b: nat, c: nat, d: nat)
    requires a < 32 && b < 32 && c < 32 && d < 32 && 32 * a + b == 32 * c + d
    ensures a == c && b == d
  {
  }

  lemma IndexInjective(a: F1024, b: F1024)
    requires Index(a) == Index(b)
    ensures a == b
  {
    PairsDiffer(Code(a.hi), Code(a.lo), Code(b.hi), Code(b.lo));
    SymbolOfCode(a.hi);
    SymbolOfCode(b.hi);
    SymbolOfCode(a.lo);
    SymbolOfCode(b.lo);
  }

  lemma IndexPositive(v: F1024)
    ensures Index(v) == 0 <==> v == NOUGHT
  {
    if Index(v) == 0 {
      IndexInjective(v, NOUGHT);
    }
  }

  lemma PowIndex(f: nat -> int)
    requires forall i: nat {:trigger f(i)} :: f(i) == Index(Pow(i))
    ensures DistinctUpTo(f, 1023) && forall i: nat {:trigger f(i)} :: 0 < f(i) <= 1023
  {
    forall i: nat, j: nat | i < j < 1023 ensures f(i) != f(j) {
      if f(i) == f(j) {
        IndexInjective(Pow(i), Pow(j));
        PowInjective(i, j);
      }
    }
    forall i: nat ensures 0 < f(i) <= 1023 {
      PowNonZero(i);
      IndexPositive(Pow(i));
    }
  }

  lemma PowOnto(v: F1024) returns (n: nat)
    requires v != NOUGHT
    ensures n < 1023 && Pow(n) == v
  {
    var f := (i: nat) => Index(Pow(i));
    PowIndex(f);
    IndexPositive(v);
    n := Onto(f, 1023, Index(v));
    IndexInjective(Pow(n), v);
  }

  // ---------- The powers in GF(32) ----------

  lemma ScalarSquare(n: nat, c: F32)
    requires Pow(n) == F1024(ZERO, c)
    ensures Pow(2 * n) == F1024(ZERO, Square32(c))
  {
    PowSum(n, n);
    SquareIs(F1024(ZERO, c));
    AddZero(Square32(c), ZERO);
  }

  /** c^32 = c in GF(32). */
  lemma Frobenius(c: F32)
    ensures Square32(Square32(Square32(Square32(Square32(c))))) == c
  {
  }

  lemma Multiples(n: nat)
    requires (32 * n) % 1023 == n % 1023
    ensures n % 33 == 0
  {
    MultipleOf33(n, (32 * n) / 1023 - n / 1023);
  }

  lemma MultipleOf33(n: int, k: int)
    requires 31 * n == 1023 * k
    ensures n % 33 == 0
  {
    assert n == 33 * k;
  }

  /** The non-zero elements of GF(32) are powers of e^33. */
  lemma ScalarLog(n: nat, c: F32)
    requires Pow(n) == F1024(ZERO, c)
    ensures n % 33 == 0
  {
    var c1 := Square32(c);
    var c2 := Square32(c1);
    var c3 := Square32(c2);
    ScalarSquare(n, c);
    ScalarSquare(2 * n, c1);
    ScalarSquare(4 * n, c2);
    ScalarSquare(8 * n, c3);
    ScalarSquare(16 * n, Square32(c3));
    Frobenius(c);
    PowEqual(32 * n, n);
    Multiples(n);
  }
}

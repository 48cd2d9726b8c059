/** The extension GF(1024) of GF(32) by a root e of x^2 + 9x + 23, and the powers of e
    (src/bech32.cpp, GenerateGFTables). */
module Bech32Ext {
  import opened Bech32Field
  import opened Iteration

  /** hi e + lo. */
  datatype F1024 = F1024(hi: F32, lo: F32)

  const NOUGHT := F1024(ZERO, ZERO)
  const UNIT := F1024(ZERO, ONE)

  function E(hi: nat, lo: nat): F1024
    requires hi < 32 && lo < 32
  {
    F1024(F(hi), F(lo))
  }

  function Plus(a: F1024, b: F1024): F1024 { F1024(Add(a.hi, b.hi), Add(a.lo, b.lo)) }

  /** 9 c, with 9 standing for x^3 + 1. */
  function Nine(c: F32): F32 { Add(c, TimesX(TimesX(TimesX(c)))) }

  /** 23 c, with 23 standing for x^4 + x^2 + x + 1. */
  function TwentyThree(c: F32): F32 {
    Add(Add(c, TimesX(c)), Add(TimesX(TimesX(c)), TimesX(TimesX(TimesX(TimesX(c))))))
  }

  lemma NineIsNine(c: F32)
    ensures Nine(c) == Mul(F(9), c)
  {
  }

  lemma TwentyThreeIs(c: F32)
    ensures TwentyThree(c) == Mul(F(23), c)
  {
    var c1 := TimesX(c);
    var c2 := TimesX(c1);
    var c4 := TimesX(TimesX(c2));
    XLinear(c, c2);
    XLinear(c1, TimesX(c2));
    XLinear(c, Add(c1, TimesX(c2)));
    assert Mul(F(23), c) == Add(c, TimesX(Add(c, TimesX(Add(c, TimesX(TimesX(c)))))));
  }

  /** Multiplication by e, as e^2 = 9e + 23. */
  function TimesE(v: F1024): F1024 { F1024(Add(Nine(v.hi), v.lo), TwentyThree(v.hi)) }

  function Times(a: F1024, b: F1024): F1024 {
    var top := Mul(a.hi, b.hi);
    F1024(Add(Add(Mul(a.hi, b.lo), Mul(a.lo, b.hi)), Nine(top)), Add(Mul(a.lo, b.lo), TwentyThree(top)))
  }

  /** e^n v. */
  function Shift(n: nat, v: F1024): F1024 { Iter(TimesE, n, v) }

  function Pow(n: nat): F1024 { Shift(n, UNIT) }

  // ---------- Algebra ----------

  lemma PlusSwap(a: F1024, b: F1024, c: F1024, d: F1024)
    ensures Plus(Plus(a, b), Plus(c, d)) == Plus(Plus(a, c), Plus(b, d))
  {
    AddSwap(a.hi, b.hi, c.hi, d.hi);
    AddSwap(a.lo, b.lo, c.lo, d.lo);
  }

  lemma PlusZero(a: F1024, b: F1024)
    ensures Plus(a, NOUGHT) == a && Plus(NOUGHT, a) == a && (Plus(a, b) == NOUGHT <==> a == b)
  {
    AddZero(a.hi, b.hi);
    AddZero(a.lo, b.lo);
  }

  lemma TimesELinear(a: F1024, b: F1024)
    ensures TimesE(Plus(a, b)) == Plus(TimesE(a), TimesE(b))
  {
    var c := Add(a.hi, b.hi);
    NineIsNine(a.hi);
    NineIsNine(b.hi);
    NineIsNine(c);
    TwentyThreeIs(a.hi);
    TwentyThreeIs(b.hi);
    TwentyThreeIs(c);
    MulRight(F(9), a.hi, b.hi);
    MulRight(F(23), a.hi, b.hi);
    AddSwap(Nine(a.hi), Nine(b.hi), a.lo, b.lo);
  }

  lemma ShiftLinear(n: nat, a: F1024, b: F1024)
    ensures Shift(n, Plus(a, b)) == Plus(Shift(n, a), Shift(n, b))
  {
    forall x, y ensures TimesE(Plus(x, y)) == Plus(TimesE(x), TimesE(y)) { TimesELinear(x, y); }
    IterAdditive(TimesE, Plus, n, a, b);
  }

  lemma ShiftShift(m: nat, n: nat, v: F1024)
    ensures Shift(m, Shift(n, v)) == Shift(m + n, v)
  {
    IterSum(TimesE, m, n, v);
  }

  lemma TimesENought()
    ensures TimesE(NOUGHT) == NOUGHT
  {
  }

  lemma ShiftZero(n: nat)
    ensures Shift(n, NOUGHT) == NOUGHT
  {
    TimesENought();
    IterFixed(TimesE, n, NOUGHT);
  }

  /** The high part of (e a) v and of e (a v), from the products of the parts. */
  lemma HighParts(n: F32, a: F1024, v: F1024)
    ensures Add(Add(Mul(Add(Mul(n, a.hi), a.lo), v.lo), Mul(Mul(F(23), a.hi), v.hi)),
                Mul(n, Mul(Add(Mul(n, a.hi), a.lo), v.hi)))
         == Add(Mul(n, Add(Add(Mul(a.hi, v.lo), Mul(a.lo, v.hi)), Mul(n, Mul(a.hi, v.hi)))),
                Add(Mul(a.lo, v.lo), Mul(F(23), Mul(a.hi, v.hi))))
  {
    var p, q, r, s := Mul(a.hi, v.lo), Mul(a.lo, v.hi), Mul(a.hi, v.hi), Mul(a.lo, v.lo);
    MulLeft(Mul(n, a.hi), a.lo, v.lo);
    MulAssoc(n, a.hi, v.lo);
    MulAssoc(F(23), a.hi, v.hi);
    MulLeft(Mul(n, a.hi), a.lo, v.hi);
    MulAssoc(n, a.hi, v.hi);
    MulRight(n, Mul(n, r), q);
    MulRight(n, Add(p, q), Mul(n, r));
    MulRight(n, p, q);
    Regroup(Mul(n, p), s, Mul(F(23), r), Mul(n, Mul(n, r)), Mul(n, q));
  }

  lemma Regroup(a: F32, b: F32, c: F32, d: F32, e: F32)
    ensures Add(Add(Add(a, b), c), Add(d, e)) == Add(Add(Add(a, e), d), Add(b, c))
  {
  }

  lemma LowParts(n: F32, a: F1024, v: F1024)
    ensures Add(Mul(Mul(F(23), a.hi), v.lo), Mul(F(23), Mul(Add(Mul(n, a.hi), a.lo), v.hi)))
         == Mul(F(23), Add(Add(Mul(a.hi, v.lo), Mul(a.lo, v.hi)), Mul(n, Mul(a.hi, v.hi))))
  {
    var p, q, r := Mul(a.hi, v.lo), Mul(a.lo, v.hi), Mul(a.hi, v.hi);
    MulAssoc(F(23), a.hi, v.lo);
    MulLeft(Mul(n, a.hi), a.lo, v.hi);
    MulAssoc(n, a.hi, v.hi);
    MulRight(F(23), Add(p, q), Mul(n, r));
    MulRight(F(23), p, q);
    MulRight(F(23), Mul(n, r), q);
    RegroupLow(Mul(F(23), p), Mul(F(23), Mul(n, r)), Mul(F(23), q));
  }

  lemma RegroupLow(a: F32, b: F32, c: F32)
    ensures Add(a, Add(b, c)) == Add(Add(a, c), b)
  {
  }

  lemma TimesETimes(a: F1024, v: F1024)
    ensures Times(TimesE(a), v) == TimesE(Times(a, v))
  {
    var m := Times(a, v);
    var b := TimesE(a);
    NineIsNine(a.hi);
    NineIsNine(m.hi);
    NineIsNine(Mul(a.hi, v.hi));
    NineIsNine(Mul(b.hi, v.hi));
    TwentyThreeIs(a.hi);
    TwentyThreeIs(m.hi);
    TwentyThreeIs(Mul(a.hi, v.hi));
    TwentyThreeIs(Mul(b.hi, v.hi));
    HighParts(F(9), a, v);
    LowParts(F(9), a, v);
  }

  lemma UnitTimes(v: F1024)
    ensures Times(UNIT, v) == v
  {
    MulOne(v.hi);
    MulOne(v.lo);
    AddZero(v.hi, v.hi);
    AddZero(v.lo, v.lo);
  }

  /** Multiplying by the element e^n is applying "times e" n times. */
  lemma PowTimes(n: nat, v: F1024)
    ensures Times(Pow(n), v) == Shift(n, v)
  {
    var g := (x: F1024) => Times(x, v);
    forall x ensures g(TimesE(x)) == TimesE(g(x)) { TimesETimes(x, v); }
    IterCommute(TimesE, g, n, UNIT);
    UnitTimes(v);
  }

  lemma PowSum(m: nat, n: nat)
    ensures Times(Pow(m), Pow(n)) == Pow(m + n)
  {
    PowTimes(m, Pow(n));
    ShiftShift(m, n, UNIT);
  }
}

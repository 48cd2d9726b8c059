/** The three consecutive powers e^997, e^998 and e^999 are roots of the Bech32 generator
    x^6 + 29x^5 + 22x^4 + 20x^3 + 21x^2 + 29x + 18 (src/bech32.cpp, PolyMod). */
module Bech32Roots {
  import opened Bech32Field
  import opened Bech32Ext
  import opened Bech32Poly
  import opened Bech32Powers
  import opened Iteration
  import opened Horner

  // ---------- Multiplication by particular symbols, bit by bit ----------

  function By13(a: F32): F32 {
    F32((a.b3 != a.b2) != a.b1, (a.b4 != a.b2) != (a.b1 != a.b0), (a.b4 != a.b2) != a.b0, (a.b4 != a.b3) != a.b1, (a.b4 != a.b3) != (a.b2 != a.b0))
  }

  function By29(a: F32): F32 {
    F32((a.b4 != a.b3) != (a.b1 != a.b0), (a.b3 != a.b2) != a.b0, (a.b4 != a.b3) != (a.b2 != a.b0), (a.b3 != a.b2) != a.b1, (a.b4 != a.b2) != (a.b1 != a.b0))
  }

  function By3(a: F32): F32 {
    F32(a.b4 != a.b3, (a.b4 != a.b3) != a.b2, a.b2 != a.b1, a.b1 != a.b0, a.b4 != a.b0)
  }

  function By5(a: F32): F32 {
    F32(a.b2, a.b1, a.b2 != a.b0, a.b4 != a.b1, a.b3 != a.b0)
  }

  function By30(a: F32): F32 {
    F32(a.b1 != a.b0, a.b4 != a.b0, (a.b4 != a.b3) != (a.b1 != a.b0), (a.b3 != a.b2) != a.b0, a.b2 != a.b1)
  }

  function By16(a: F32): F32 {
    F32((a.b4 != a.b2) != a.b0, (a.b4 != a.b3) != a.b1, a.b3, a.b4 != a.b2, a.b3 != a.b1)
  }

  lemma By13Is(a: F32)
    ensures By13(a) == Mul(F32(O, I, I, O, I), a)
  {
  }

  lemma By29Is(a: F32)
    ensures By29(a) == Mul(F32(I, I, I, O, I), a)
  {
  }

  lemma By3Is(a: F32)
    ensures By3(a) == Mul(F32(O, O, O, I, I), a)
  {
  }

  lemma By5Is(a: F32)
    ensures By5(a) == Mul(F32(O, O, I, O, I), a)
  {
  }

  lemma By30Is(a: F32)
    ensures By30(a) == Mul(F32(I, I, I, I, O), a)
  {
  }

  lemma By16Is(a: F32)
    ensures By16(a) == Mul(F32(I, O, O, O, O), a)
  {
  }

  // ---------- Multiplication by e^997, e^998, e^999 ----------

  function Times997(v: F1024): F1024 {
    F1024(Add(Add(By13(v.lo), By29(v.hi)), NineBits(By13(v.hi))), Add(By29(v.lo), TwentyThreeBits(By13(v.hi))))
  }

  lemma Shift997(n: nat, v: F1024)
    requires 996 < n < 998
    ensures Shift(n, v) == Times997(v)
  {
    PowClimbs();
    Power997(Pow, n);
    PowTimes(n, v);
    By13Is(v.lo);
    By13Is(v.hi);
    By29Is(v.lo);
    By29Is(v.hi);
    BitsAgree(By13(v.hi));
  }

  function Times998(v: F1024): F1024 {
    F1024(Add(Add(By3(v.lo), By5(v.hi)), NineBits(By3(v.hi))), Add(By5(v.lo), TwentyThreeBits(By3(v.hi))))
  }

  lemma Shift998(n: nat, v: F1024)
    requires 997 < n < 999
    ensures Shift(n, v) == Times998(v)
  {
    PowClimbs();
    Power998(Pow, n);
    PowTimes(n, v);
    By3Is(v.lo);
    By3Is(v.hi);
    By5Is(v.lo);
    By5Is(v.hi);
    BitsAgree(By3(v.hi));
  }

  function Times999(v: F1024): F1024 {
    F1024(Add(Add(By30(v.lo), By16(v.hi)), NineBits(By30(v.hi))), Add(By16(v.lo), TwentyThreeBits(By30(v.hi))))
  }

  lemma Shift999(n: nat, v: F1024)
    requires 998 < n < 1000
    ensures Shift(n, v) == Times999(v)
  {
    PowClimbs();
    Power999(Pow, n);
    PowTimes(n, v);
    By30Is(v.lo);
    By30Is(v.hi);
    By16Is(v.lo);
    By16Is(v.hi);
    BitsAgree(By30(v.hi));
  }

  // ---------- The residue as a polynomial ----------

  function Embed(c: F32): F1024 { F1024(ZERO, c) }

  function Scale(c: F32, v: F1024): F1024 { F1024(Mul(c, v.hi), Mul(c, v.lo)) }

  /** The value of the residue at the point that f multiplies by. */
  function Eval(f: F1024 -> F1024, r: Residue): F1024 {
    Sum(Plus, f, Embed(r.r0), Embed(r.r1), Embed(r.r2), Embed(r.r3), Embed(r.r4), Embed(r.r5))
  }

  lemma EmbedSum(a: F32, top: F32, k: F32)
    ensures Embed(Coefficient(top, a, k)) == Plus(Embed(a), Scale(top, Embed(k)))
  {
    MulOne(top);
  }

  lemma PlusLaws()
    ensures Crosswise(Plus) && Associative(Plus)
  {
    forall a, b, c, d ensures Plus(Plus(a, b), Plus(c, d)) == Plus(Plus(a, c), Plus(b, d)) { PlusSwap(a, b, c, d); }
    forall a, b, c ensures Plus(Plus(a, b), c) == Plus(a, Plus(b, c)) {
      AddAssoc(a.hi, b.hi, c.hi);
      AddAssoc(a.lo, b.lo, c.lo);
    }
  }

  lemma ScaleAdditive(c: F32, a: F1024, b: F1024)
    ensures Scale(c, Plus(a, b)) == Plus(Scale(c, a), Scale(c, b))
  {
    MulRight(c, a.hi, b.hi);
    MulRight(c, a.lo, b.lo);
  }

  lemma MulSwap(c: F32, k: F32, x: F32)
    ensures Mul(c, Mul(k, x)) == Mul(k, Mul(c, x))
  {
    MulAssoc(c, k, x);
    MulComm(c, k);
    MulAssoc(k, c, x);
  }

  lemma ScaleTimesE(c: F32, v: F1024)
    ensures Scale(c, TimesE(v)) == TimesE(Scale(c, v))
  {
    NineIsNine(v.hi);
    NineIsNine(Mul(c, v.hi));
    TwentyThreeIs(v.hi);
    TwentyThreeIs(Mul(c, v.hi));
    MulSwap(c, F(9), v.hi);
    MulSwap(c, F(23), v.hi);
    MulRight(c, Nine(v.hi), v.lo);
  }

  lemma ScaleShift(c: F32, n: nat, v: F1024)
    ensures Scale(c, Shift(n, v)) == Shift(n, Scale(c, v))
  {
    var g := (x: F1024) => Scale(c, x);
    forall x ensures g(TimesE(x)) == TimesE(g(x)) { ScaleTimesE(c, x); }
    IterCommute(TimesE, g, n, v);
  }

  ghost predicate LinearMap(f: F1024 -> F1024) {
    && Additive(f, Plus)
    && (forall c: F32, v: F1024 {:trigger f(Scale(c, v))} :: f(Scale(c, v)) == Scale(c, f(v)))
  }

  /** The generator x^6 + k(x) has value 0 at the point. */
  ghost predicate Vanishes(f: F1024 -> F1024, one: F1024) { Six(f, one) == Eval(f, K1) }

  /** f is multiplication by a root of the generator. */
  ghost predicate RootMap(f: F1024 -> F1024) {
    && LinearMap(f)
    && (forall one {:trigger Vanishes(f, one)} :: one == UNIT ==> Vanishes(f, one))
  }

  /** At a root of the generator, a round of PolyMod multiplies by the point and adds the
      new symbol. */
  lemma EvalStep(f: F1024 -> F1024, c: Residue, v: F32)
    requires RootMap(f)
    ensures Eval(f, Step(c, v)) == Plus(Embed(v), f(Eval(f, c)))
  {
    var g := (x: F1024) => Scale(c.r0, x);
    StepDivides(c, v);
    EmbedSum(c.r1, c.r0, K1.r0);
    EmbedSum(c.r2, c.r0, K1.r1);
    EmbedSum(c.r3, c.r0, K1.r2);
    EmbedSum(c.r4, c.r0, K1.r3);
    EmbedSum(c.r5, c.r0, K1.r4);
    EmbedSum(v, c.r0, K1.r5);
    PlusLaws();
    forall a, b ensures g(Plus(a, b)) == Plus(g(a), g(b)) { ScaleAdditive(c.r0, a, b); }
    forall x ensures g(f(x)) == f(g(x)) { assert f(Scale(c.r0, x)) == Scale(c.r0, f(x)); }
    MulOne(c.r0);
    assert Vanishes(f, UNIT);
    SumReduced(Plus, f, g, UNIT, Embed(c.r0), Embed(c.r1), Embed(c.r2), Embed(c.r3), Embed(c.r4), Embed(c.r5), Embed(v),
               Embed(K1.r0), Embed(K1.r1), Embed(K1.r2), Embed(K1.r3), Embed(K1.r4), Embed(K1.r5));
  }

  // ---------- The three roots ----------

  lemma PointMap(f: F1024 -> F1024, n: nat)
    requires forall v {:trigger f(v)} :: f(v) == Shift(n, v)
    ensures LinearMap(f)
  {
    forall a, b ensures f(Plus(a, b)) == Plus(f(a), f(b)) { ShiftLinear(n, a, b); }
    forall c: F32, v: F1024 ensures f(Scale(c, v)) == Scale(c, f(v)) { ScaleShift(c, n, v); }
  }

  lemma Values(f: F1024 -> F1024, a1: F1024, a2: F1024, a3: F1024, a4: F1024, a5: F1024, a6: F1024,
               s1: F1024, s2: F1024, s3: F1024, s4: F1024, one: F1024)
    requires a1 == f(one) && a2 == f(a1) && a3 == f(a2) && a4 == f(a3) && a5 == f(a4) && a6 == f(a5)
    requires s1 == Plus(Embed(K1.r1), f(Embed(K1.r0))) && s2 == Plus(Embed(K1.r2), f(s1))
    requires s3 == Plus(Embed(K1.r3), f(s2)) && s4 == Plus(Embed(K1.r4), f(s3)) && a6 == Plus(Embed(K1.r5), f(s4))
    ensures Vanishes(f, one)
  {
  }

  lemma Linear997()
    ensures LinearMap(Times997)
  {
    var n: nat :| 996 < n < 998;
    forall v ensures Times997(v) == Shift(n, v) { Shift997(n, v); }
    PointMap(Times997, n);
  }

  lemma Zero997(one: F1024)
    requires one == UNIT
    ensures Vanishes(Times997, one)
  {
    Values(Times997,
             W(O, I, I, O, I,  I, I, I, O, I), W(I, I, O, I, I,  O, I, O, O, I), W(I, I, O, I, O,  O, I, I, I, I),
             W(I, I, I, I, O,  I, O, I, I, O), W(O, O, O, I, I,  I, O, I, O, O), W(I, O, I, I, I,  I, O, I, O, I),
             W(O, I, I, O, O,  O, I, I, I, I), W(O, I, I, O, I,  I, I, I, I, O), W(O, I, I, O, O,  I, O, O, I, O), W(O, O, O, O, I,  O, I, I, I, O), one);
  }

  lemma Root997()
    ensures RootMap(Times997)
  {
    Linear997();
    forall one | one == UNIT ensures Vanishes(Times997, one) { Zero997(one); }
  }

  lemma Linear998()
    ensures LinearMap(Times998)
  {
    var n: nat :| 997 < n < 999;
    forall v ensures Times998(v) == Shift(n, v) { Shift998(n, v); }
    PointMap(Times998, n);
  }

  lemma Zero998(one: F1024)
    requires one == UNIT
    ensures Vanishes(Times998, one)
  {
    Values(Times998,
             W(O, O, O, I, I,  O, O, I, O, I), W(O, O, I, O, O,  O, I, O, O, O), W(I, I, O, I, I,  I, O, O, I, I),
             W(I, I, I, O, I,  O, O, O, I, I), W(I, O, O, I, O,  I, I, O, I, O), W(I, I, I, I, O,  I, I, O, I, O),
             W(O, I, I, I, O,  O, O, I, O, O), W(I, I, I, O, O,  I, O, I, I, O), W(I, I, O, I, O,  O, I, I, O, O), W(O, I, O, I, I,  I, O, I, I, O), one);
  }

  lemma Root998()
    ensures RootMap(Times998)
  {
    Linear998();
    forall one | one == UNIT ensures Vanishes(Times998, one) { Zero998(one); }
  }

  lemma Linear999()
    ensures LinearMap(Times999)
  {
    var n: nat :| 998 < n < 1000;
    forall v ensures Times999(v) == Shift(n, v) { Shift999(n, v); }
    PointMap(Times999, n);
  }

  lemma Zero999(one: F1024)
    requires one == UNIT
    ensures Vanishes(Times999, one)
  {
    Values(Times999,
             W(I, I, I, I, O,  I, O, O, O, O), W(O, I, O, I, O,  I, I, O, O, I), W(I, O, I, I, O,  O, O, I, I, O),
             W(O, O, O, I, O,  I, O, O, O, I), W(O, O, O, I, O,  O, O, O, I, O), W(O, O, I, O, I,  O, O, O, O, I),
             W(I, O, I, I, I,  O, O, O, I, I), W(I, O, I, I, I,  O, O, O, I, I), W(I, O, I, I, I,  O, O, O, I, O), W(O, I, O, O, I,  I, I, O, I, O), one);
  }

  lemma Root999()
    ensures RootMap(Times999)
  {
    Linear999();
    forall one | one == UNIT ensures Vanishes(Times999, one) { Zero999(one); }
  }
}

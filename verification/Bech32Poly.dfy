/** The checksum register of Bech32 (src/bech32.cpp, PolyMod): six symbols, the remainder
    of a polynomial over GF(32) modulo the generator. */
module Bech32Poly {
  import opened Bech32Field
  import opened Folding

  /** The five-bit groups of the 30-bit register, highest first. */
  datatype Residue = Residue(r0: F32, r1: F32, r2: F32, r3: F32, r4: F32, r5: F32)

  /** The register as the integer the source keeps. */
  function Packed(r: Residue): nat {
    ((((Code(r.r0) * 32 + Code(r.r1)) * 32 + Code(r.r2)) * 32 + Code(r.r3)) * 32 + Code(r.r4)) * 32 + Code(r.r5)
  }

  const K1 := Residue(F32(I, I, I, O, I), F32(I, O, I, I, O), F32(I, O, I, O, O), F32(I, O, I, O, I), F32(I, I, I, O, I), F32(I, O, O, I, O))
  const K2 := Residue(F32(I, O, O, I, I), F32(O, O, I, O, I), F32(O, O, O, O, I), F32(O, O, O, I, I), F32(I, O, O, I, I), F32(O, I, I, O, I))
  const K4 := Residue(F32(O, I, I, I, I), F32(O, I, O, I, O), F32(O, O, O, I, O), F32(O, O, I, I, O), F32(O, I, I, I, I), F32(I, I, O, I, O))
  const K8 := Residue(F32(I, I, I, I, O), F32(I, O, I, O, O), F32(O, O, I, O, O), F32(O, I, I, O, O), F32(I, I, I, I, O), F32(I, I, I, O, I))
  const K16 := Residue(F32(I, O, I, O, I), F32(O, O, O, O, I), F32(O, I, O, O, O), F32(I, I, O, O, O), F32(I, O, I, O, I), F32(I, O, O, I, I))

  lemma ConstantK1()
    ensures Packed(K1) == 0x3b6a57b2
  {
  }

  lemma ConstantK2()
    ensures Packed(K2) == 0x26508e6d
  {
  }

  lemma ConstantK4()
    ensures Packed(K4) == 0x1ea119fa
  {
  }

  lemma ConstantK8()
    ensures Packed(K8) == 0x3d4233dd
  {
  }

  lemma ConstantK16()
    ensures Packed(K16) == 0x2a1462b3
  {
  }

  function AddR(a: Residue, b: Residue): Residue {
    Residue(Add(a.r0, b.r0), Add(a.r1, b.r1), Add(a.r2, b.r2), Add(a.r3, b.r3), Add(a.r4, b.r4), Add(a.r5, b.r5))
  }

  function AddIf(s: bool, k: Residue, c: Residue): Residue { if s then AddR(c, k) else c }

  /** One round of the loop of PolyMod. */
  function Step(c: Residue, v: F32): Residue {
    var shifted := Residue(c.r1, c.r2, c.r3, c.r4, c.r5, v);
    AddIf(c.r0.b4, K16, AddIf(c.r0.b3, K8, AddIf(c.r0.b2, K4, AddIf(c.r0.b1, K2, AddIf(c.r0.b0, K1, shifted)))))
  }

  /** One coefficient of (c(x) x + v) mod g(x). */
  function Coefficient(top: F32, next: F32, k: F32): F32 { Add(next, Mul(top, k)) }

  function Divided(c: Residue, v: F32): Residue {
    Residue(Coefficient(c.r0, c.r1, K1.r0), Coefficient(c.r0, c.r2, K1.r1), Coefficient(c.r0, c.r3, K1.r2),
            Coefficient(c.r0, c.r4, K1.r3), Coefficient(c.r0, c.r5, K1.r4), Coefficient(c.r0, v, K1.r5))
  }

  function Select(s: bool, k: F32): F32 { if s then k else ZERO }

  function Selected(top: F32, next: F32, k1: F32, k2: F32, k4: F32, k8: F32, k16: F32): F32 {
    Add(Add(Add(Add(Add(next, Select(top.b0, k1)), Select(top.b1, k2)), Select(top.b2, k4)), Select(top.b3, k8)), Select(top.b4, k16))
  }

  lemma SelectX(s: bool, k: F32, t: F32)
    ensures TimesX(Add(Select(s, k), t)) == Add(Select(s, TimesX(k)), TimesX(t))
    ensures Acc(s, k, t) == Add(Select(s, k), TimesX(t))
  {
  }

  lemma Nested(a: F32, b: F32, c: F32, d: F32, e: F32, f: F32)
    ensures Add(Add(Add(Add(Add(a, b), c), d), e), f) == Add(a, Add(b, Add(c, Add(d, Add(e, f)))))
  {
    AddAssoc(Add(Add(Add(a, b), c), d), e, f);
    AddAssoc(Add(Add(a, b), c), d, Add(e, f));
    AddAssoc(Add(a, b), c, Add(d, Add(e, f)));
    AddAssoc(a, b, Add(c, Add(d, Add(e, f))));
  }

  /** Selecting multiples of k by the bits of top is multiplying by top. */
  lemma SelectedIs(top: F32, next: F32, k1: F32, k2: F32, k4: F32, k8: F32, k16: F32)
    requires k2 == TimesX(k1) && k4 == TimesX(k2) && k8 == TimesX(k4) && k16 == TimesX(k8)
    ensures Selected(top, next, k1, k2, k4, k8, k16) == Coefficient(top, next, k1)
  {
    var m4 := Acc(top.b4, k1, ZERO);
    var m3 := Acc(top.b3, k1, m4);
    var m2 := Acc(top.b2, k1, m3);
    var m1 := Acc(top.b1, k1, m2);
    var s1, s2, s4, s8, s16 := Select(top.b0, k1), Select(top.b1, k2), Select(top.b2, k4), Select(top.b3, k8), Select(top.b4, k16);
    assert TimesX(TimesX(TimesX(TimesX(m4)))) == s16;
    SelectX(top.b3, k1, TimesX(m4)); SelectX(top.b3, k2, TimesX(TimesX(m4))); SelectX(top.b3, k4, TimesX(TimesX(TimesX(m4))));
    SelectX(top.b3, k1, m4);
    assert TimesX(TimesX(TimesX(m3))) == Add(s8, s16);
    SelectX(top.b2, k1, m3); SelectX(top.b2, k1, TimesX(m3)); SelectX(top.b2, k2, TimesX(TimesX(m3)));
    assert TimesX(TimesX(m2)) == Add(s4, Add(s8, s16));
    SelectX(top.b1, k1, m2); SelectX(top.b1, k1, TimesX(m2));
    assert TimesX(m1) == Add(s2, Add(s4, Add(s8, s16)));
    SelectX(top.b0, k1, m1);
    Nested(next, s1, s2, s4, s8, s16);
  }

  function Doubled(r: Residue): Residue {
    Residue(TimesX(r.r0), TimesX(r.r1), TimesX(r.r2), TimesX(r.r3), TimesX(r.r4), TimesX(r.r5))
  }

  lemma ConstantsDouble()
    ensures K2 == Doubled(K1) && K4 == Doubled(K2) && K8 == Doubled(K4) && K16 == Doubled(K8)
  {
  }

  lemma AddIfParts(s: bool, k: Residue, c: Residue)
    ensures AddIf(s, k, c) == Residue(Add(c.r0, Select(s, k.r0)), Add(c.r1, Select(s, k.r1)), Add(c.r2, Select(s, k.r2)),
                                      Add(c.r3, Select(s, k.r3)), Add(c.r4, Select(s, k.r4)), Add(c.r5, Select(s, k.r5)))
  {
    AddZero(c.r0, ZERO);
    AddZero(c.r1, ZERO);
    AddZero(c.r2, ZERO);
    AddZero(c.r3, ZERO);
    AddZero(c.r4, ZERO);
    AddZero(c.r5, ZERO);
  }

  /** Adding the five constants by the bits of top, for any constants. */
  lemma AddIfAll(top: F32, c: Residue, k1: Residue, k2: Residue, k4: Residue, k8: Residue, k16: Residue, d: Residue)
    requires d == AddIf(top.b4, k16, AddIf(top.b3, k8, AddIf(top.b2, k4, AddIf(top.b1, k2, AddIf(top.b0, k1, c)))))
    ensures d.r0 == Selected(top, c.r0, k1.r0, k2.r0, k4.r0, k8.r0, k16.r0)
    ensures d.r1 == Selected(top, c.r1, k1.r1, k2.r1, k4.r1, k8.r1, k16.r1)
    ensures d.r2 == Selected(top, c.r2, k1.r2, k2.r2, k4.r2, k8.r2, k16.r2)
    ensures d.r3 == Selected(top, c.r3, k1.r3, k2.r3, k4.r3, k8.r3, k16.r3)
    ensures d.r4 == Selected(top, c.r4, k1.r4, k2.r4, k4.r4, k8.r4, k16.r4)
    ensures d.r5 == Selected(top, c.r5, k1.r5, k2.r5, k4.r5, k8.r5, k16.r5)
  {
    var c1 := AddIf(top.b0, k1, c);
    var c2 := AddIf(top.b1, k2, c1);
    var c4 := AddIf(top.b2, k4, c2);
    var c8 := AddIf(top.b3, k8, c4);
    AddIfParts(top.b0, k1, c);
    AddIfParts(top.b1, k2, c1);
    AddIfParts(top.b2, k4, c2);
    AddIfParts(top.b3, k8, c4);
    AddIfParts(top.b4, k16, c8);
  }

  lemma Multiplied(top: F32, c: Residue, k1: Residue, k2: Residue, k4: Residue, k8: Residue, k16: Residue, d: Residue)
    requires k2 == Doubled(k1) && k4 == Doubled(k2) && k8 == Doubled(k4) && k16 == Doubled(k8)
    requires d.r0 == Selected(top, c.r0, k1.r0, k2.r0, k4.r0, k8.r0, k16.r0)
    requires d.r1 == Selected(top, c.r1, k1.r1, k2.r1, k4.r1, k8.r1, k16.r1)
    requires d.r2 == Selected(top, c.r2, k1.r2, k2.r2, k4.r2, k8.r2, k16.r2)
    requires d.r3 == Selected(top, c.r3, k1.r3, k2.r3, k4.r3, k8.r3, k16.r3)
    requires d.r4 == Selected(top, c.r4, k1.r4, k2.r4, k4.r4, k8.r4, k16.r4)
    requires d.r5 == Selected(top, c.r5, k1.r5, k2.r5, k4.r5, k8.r5, k16.r5)
    ensures d == Residue(Coefficient(top, c.r0, k1.r0), Coefficient(top, c.r1, k1.r1), Coefficient(top, c.r2, k1.r2), Coefficient(top, c.r3, k1.r3), Coefficient(top, c.r4, k1.r4), Coefficient(top, c.r5, k1.r5))
  {
    SelectedIs(top, c.r0, k1.r0, k2.r0, k4.r0, k8.r0, k16.r0);
    SelectedIs(top, c.r1, k1.r1, k2.r1, k4.r1, k8.r1, k16.r1);
    SelectedIs(top, c.r2, k1.r2, k2.r2, k4.r2, k8.r2, k16.r2);
    SelectedIs(top, c.r3, k1.r3, k2.r3, k4.r3, k8.r3, k16.r3);
    SelectedIs(top, c.r4, k1.r4, k2.r4, k4.r4, k8.r4, k16.r4);
    SelectedIs(top, c.r5, k1.r5, k2.r5, k4.r5, k8.r5, k16.r5);
  }

  /** The constants are 1, 2, 4, 8 and 16 times the low part of the generator, so a round is
      one step of division by it. */
  lemma StepDivides(c: Residue, v: F32)
    ensures Step(c, v) == Divided(c, v)
  {
    var shifted := Residue(c.r1, c.r2, c.r3, c.r4, c.r5, v);
    AddIfAll(c.r0, shifted, K1, K2, K4, K8, K16, Step(c, v));
    ConstantsDouble();
    Multiplied(c.r0, shifted, K1, K2, K4, K8, K16, Step(c, v));
  }

  // ---------- The register is linear in its input ----------

  lemma CoefficientLinear(a: F32, b: F32, c: F32, d: F32, k: F32)
    ensures Coefficient(Add(a, b), Add(c, d), k) == Add(Coefficient(a, c, k), Coefficient(b, d, k))
  {
    MulLeft(a, b, k);
    AddSwap(c, d, Mul(a, k), Mul(b, k));
  }

  lemma StepLinear(a: Residue, b: Residue, u: F32, v: F32)
    ensures Step(AddR(a, b), Add(u, v)) == AddR(Step(a, u), Step(b, v))
  {
    StepDivides(AddR(a, b), Add(u, v));
    StepDivides(a, u);
    StepDivides(b, v);
    CoefficientLinear(a.r0, b.r0, a.r1, b.r1, K1.r0);
    CoefficientLinear(a.r0, b.r0, a.r2, b.r2, K1.r1);
    CoefficientLinear(a.r0, b.r0, a.r3, b.r3, K1.r2);
    CoefficientLinear(a.r0, b.r0, a.r4, b.r4, K1.r3);
    CoefficientLinear(a.r0, b.r0, a.r5, b.r5, K1.r4);
    CoefficientLinear(a.r0, b.r0, u, v, K1.r5);
  }

  const BLANK := Residue(ZERO, ZERO, ZERO, ZERO, ZERO, ZERO)
  const START := Residue(ZERO, ZERO, ZERO, ZERO, ZERO, ONE)

  /** PolyMod continued from a register. */
  function Poly(c: Residue, vs: seq<F32>): Residue { Fold(Step, c, vs) }

  method PolyMod(vs: seq<F32>) returns (c: Residue)
    ensures c == Poly(START, vs)
  {
    c := START;
    for i := 0 to |vs|
      invariant c == Poly(START, vs[..i])
    {
      FoldSnoc(Step, START, vs[..i], vs[i]);
      assert vs[..i + 1] == vs[..i] + [vs[i]];
      c := Step(c, vs[i]);
    }
    assert vs[..|vs|] == vs;
  }

  lemma PolyConcat(c: Residue, a: seq<F32>, b: seq<F32>)
    ensures Poly(c, a + b) == Poly(Poly(c, a), b)
  {
    FoldConcat(Step, c, a, b);
  }

  lemma PolyLinear(a: Residue, b: Residue, u: seq<F32>, v: seq<F32>)
    requires |u| == |v|
    ensures Poly(AddR(a, b), Zip(Add, u, v)) == AddR(Poly(a, u), Poly(b, v))
  {
    forall x, y, w, z ensures Step(AddR(x, y), Add(w, z)) == AddR(Step(x, w), Step(y, z)) { StepLinear(x, y, w, z); }
    FoldZip(Step, AddR, Add, a, b, u, v);
  }

  // ---------- Appending a checksum ----------

  lemma ShiftIn(c: Residue, v: F32)
    requires c.r0 == ZERO
    ensures Step(c, v) == Residue(c.r1, c.r2, c.r3, c.r4, c.r5, v)
  {
  }

  function Symbols(r: Residue): seq<F32> { [r.r0, r.r1, r.r2, r.r3, r.r4, r.r5] }

  /** Six symbols fed into an empty register just fill it. */
  lemma FillRegister(r: Residue)
    ensures Poly(BLANK, Symbols(r)) == r
  {
    var c1 := Residue(ZERO, ZERO, ZERO, ZERO, ZERO, r.r0);
    var c2 := Residue(ZERO, ZERO, ZERO, ZERO, r.r0, r.r1);
    var c3 := Residue(ZERO, ZERO, ZERO, r.r0, r.r1, r.r2);
    var c4 := Residue(ZERO, ZERO, r.r0, r.r1, r.r2, r.r3);
    var c5 := Residue(ZERO, r.r0, r.r1, r.r2, r.r3, r.r4);
    ShiftIn(BLANK, r.r0);
    ShiftIn(c1, r.r1);
    ShiftIn(c2, r.r2);
    ShiftIn(c3, r.r3);
    ShiftIn(c4, r.r4);
    ShiftIn(c5, r.r5);
    SixSteps(Step, BLANK, r.r0, r.r1, r.r2, r.r3, r.r4, r.r5);
  }

  lemma SixSteps<S, T>(f: (S, T) -> S, c: S, a0: T, a1: T, a2: T, a3: T, a4: T, a5: T)
    ensures Fold(f, c, [a0, a1, a2, a3, a4, a5]) == f(f(f(f(f(f(c, a0), a1), a2), a3), a4), a5)
  {
    FoldSnoc(f, c, [], a0);
    FoldSnoc(f, c, [a0], a1);
    FoldSnoc(f, c, [a0, a1], a2);
    FoldSnoc(f, c, [a0, a1, a2], a3);
    FoldSnoc(f, c, [a0, a1, a2, a3], a4);
    FoldSnoc(f, c, [a0, a1, a2, a3, a4], a5);
    assert [] + [a0] == [a0] && [a0] + [a1] == [a0, a1] && [a0, a1] + [a2] == [a0, a1, a2];
    assert [a0, a1, a2] + [a3] == [a0, a1, a2, a3] && [a0, a1, a2, a3] + [a4] == [a0, a1, a2, a3, a4];
    assert [a0, a1, a2, a3, a4] + [a5] == [a0, a1, a2, a3, a4, a5];
  }

  /** Symbols put in place of six zeros are added to the register. */
  lemma AppendSix(c: Residue, r: Residue)
    ensures Poly(c, Symbols(r)) == AddR(Poly(c, Symbols(BLANK)), r)
  {
    AddRBlank(c);
    AddRBlank(r);
    ZipBlank(r);
    PolyLinear(c, BLANK, Symbols(BLANK), Symbols(r));
    FillRegister(r);
  }

  lemma AddRBlank(c: Residue)
    ensures AddR(c, BLANK) == c && AddR(BLANK, c) == c
  {
    AddZero(c.r0, ZERO);
    AddZero(c.r1, ZERO);
    AddZero(c.r2, ZERO);
    AddZero(c.r3, ZERO);
    AddZero(c.r4, ZERO);
    AddZero(c.r5, ZERO);
  }

  lemma ZipBlank(r: Residue)
    ensures Zip(Add, Symbols(BLANK), Symbols(r)) == Symbols(r)
  {
    ZipSix(Add, ZERO, r.r0, r.r1, r.r2, r.r3, r.r4, r.r5);
    AddZero(r.r0, ZERO);
    AddZero(r.r1, ZERO);
    AddZero(r.r2, ZERO);
    AddZero(r.r3, ZERO);
    AddZero(r.r4, ZERO);
    AddZero(r.r5, ZERO);
  }

  lemma ZipSix<T>(plus: (T, T) -> T, z: T, a0: T, a1: T, a2: T, a3: T, a4: T, a5: T)
    ensures Zip(plus, [z, z, z, z, z, z], [a0, a1, a2, a3, a4, a5])
         == [plus(z, a0), plus(z, a1), plus(z, a2), plus(z, a3), plus(z, a4), plus(z, a5)]
  {
    ZipCons(plus, z, [z, z, z, z, z], a0, [a1, a2, a3, a4, a5]);
    ZipCons(plus, z, [z, z, z, z], a1, [a2, a3, a4, a5]);
    ZipCons(plus, z, [z, z, z], a2, [a3, a4, a5]);
    ZipCons(plus, z, [z, z], a3, [a4, a5]);
    ZipCons(plus, z, [z], a4, [a5]);
    ZipCons(plus, z, [], a5, []);
  }

  lemma ZipCons<T>(plus: (T, T) -> T, a: T, u: seq<T>, b: T, v: seq<T>)
    requires |u| == |v|
    ensures Zip(plus, [a] + u, [b] + v) == [plus(a, b)] + Zip(plus, u, v)
  {
    assert ([a] + u)[1..] == u && ([b] + v)[1..] == v;
  }
}

/** What errors in a string do to the checksum register, and the guarantee that up to three
    changed symbols within 1023 are always noticed (src/bech32.cpp, PolyMod and Syndrome). */
module Bech32Errors {
  import opened Bech32Field
  import opened Bech32Ext
  import opened Bech32Poly
  import opened Bech32Roots
  import opened Iteration
  import opened Folding

  // ---------- One error ----------

  lemma EvalBlank(f: F1024 -> F1024, x: F32)
    requires LinearMap(f)
    ensures Eval(f, Residue(ZERO, ZERO, ZERO, ZERO, ZERO, x)) == Embed(x)
  {
    NoughtFixed(f);
    PlusZero(NOUGHT, NOUGHT);
    PlusZero(Embed(x), NOUGHT);
  }

  lemma NoughtFixed(f: F1024 -> F1024)
    requires LinearMap(f)
    ensures f(NOUGHT) == NOUGHT
  {
    assert f(Plus(NOUGHT, NOUGHT)) == Plus(f(NOUGHT), f(NOUGHT));
    PlusZero(NOUGHT, NOUGHT);
    PlusZero(f(NOUGHT), f(NOUGHT));
  }

  /** Zeros after a register multiply its value by the point each time. */
  lemma EvalZeros(f: F1024 -> F1024, c: Residue, p: nat)
    requires RootMap(f)
    ensures Eval(f, Poly(c, Repeat(ZERO, p))) == Iter(f, p, Eval(f, c))
  {
    var h := (r: Residue) => Eval(f, r);
    forall x ensures h(Step(x, ZERO)) == f(h(x)) {
      EvalStep(f, x, ZERO);
      PlusZero(f(h(x)), NOUGHT);
    }
    FoldRepeat(Step, f, h, ZERO, c, p);
  }

  lemma ShiftTimes(f: F1024 -> F1024, n: nat, p: nat, v: F1024)
    requires forall x {:trigger f(x)} :: f(x) == Iter(TimesE, n, x)
    ensures Iter(f, p, v) == Shift(n * p, v)
  {
    IterProduct(f, TimesE, n, p, v);
  }

  lemma {:induction false} IterProduct<T(!new)>(f: T -> T, g: T -> T, n: nat, p: nat, v: T)
    requires forall x {:trigger f(x)} :: f(x) == Iter(g, n, x)
    ensures Iter(f, p, v) == Iter(g, n * p, v)
    decreases p
  {
    if p > 0 {
      IterProduct(f, g, n, p - 1, v);
      IterSum(g, n, n * (p - 1), v);
      assert n + n * (p - 1) == n * p;
    }
  }

  /** n symbols, all zero but x at distance p from the end. */
  function Single(n: nat, p: nat, x: F32): (e: seq<F32>)
    requires p < n
    ensures |e| == n && forall i {:trigger e[i]} :: 0 <= i < n ==> e[i] == if i == n - 1 - p then x else ZERO
  {
    Repeat(ZERO, n - 1 - p) + ([x] + Repeat(ZERO, p))
  }

  lemma PolyZeros(n: nat)
    ensures Poly(BLANK, Repeat(ZERO, n)) == BLANK
  {
    var id := (r: Residue) => r;
    var step := (r: Residue) => Step(r, ZERO);
    FoldRepeat(Step, step, id, ZERO, BLANK, n);
    ShiftIn(BLANK, ZERO);
    IterFixed(step, n, BLANK);
  }

  /** A single error x at distance p leaves x X^p modulo the generator in the register. */
  lemma PolySingle(n: nat, p: nat, x: F32)
    requires p < n
    ensures Poly(BLANK, Single(n, p, x)) == Poly(Residue(ZERO, ZERO, ZERO, ZERO, ZERO, x), Repeat(ZERO, p))
  {
    var one := Residue(ZERO, ZERO, ZERO, ZERO, ZERO, x);
    PolyConcat(BLANK, Repeat(ZERO, n - 1 - p), [x] + Repeat(ZERO, p));
    PolyZeros(n - 1 - p);
    PolyConcat(BLANK, [x], Repeat(ZERO, p));
    ShiftIn(BLANK, x);
    FoldSnoc(Step, BLANK, [], x);
    assert [] + [x] == [x];
  }

  lemma EvalSingle(f: F1024 -> F1024, n: nat, p: nat, x: F32)
    requires RootMap(f) && p < n
    ensures Eval(f, Poly(BLANK, Single(n, p, x))) == Iter(f, p, Embed(x))
  {
    var one := Residue(ZERO, ZERO, ZERO, ZERO, ZERO, x);
    PolySingle(n, p, x);
    EvalZeros(f, one, p);
    EvalBlank(f, x);
  }

  ghost predicate PowerIs(f: F1024 -> F1024, n: nat, p: nat, v: F1024) { Iter(f, p, v) == Shift(n * p, v) }

  /** f multiplies by e^n, a root of the generator. */
  ghost predicate Point(f: F1024 -> F1024, n: nat) {
    RootMap(f) && forall p: nat, v {:trigger PowerIs(f, n, p, v)} :: PowerIs(f, n, p, v)
  }

  lemma Points()
    ensures Point(Times997, 997) && Point(Times998, 998) && Point(Times999, 999)
  {
    Root997();
    Root998();
    Root999();
    forall p: nat, v ensures PowerIs(Times997, 997, p, v) { Power997Times(997, p, v); }
    forall p: nat, v ensures PowerIs(Times998, 998, p, v) { Power998Times(998, p, v); }
    forall p: nat, v ensures PowerIs(Times999, 999, p, v) { Power999Times(999, p, v); }
  }

  /** The syndrome of a single error x at distance p: x e^(jp). */
  lemma ErrorSyndrome(f: F1024 -> F1024, j: nat, n: nat, p: nat, x: F32, a: Residue, m: nat)
    requires p < n && m == j * p && a == Poly(BLANK, Single(n, p, x)) && Point(f, j)
    ensures Eval(f, a) == Shift(m, Embed(x))
  {
    EvalSingle(f, n, p, x);
    assert PowerIs(f, j, p, Embed(x));
  }

  lemma Power997Times(j: nat, p: nat, v: F1024)
    requires 996 < j < 998
    ensures Iter(Times997, p, v) == Shift(j * p, v)
  {
    forall x ensures Times997(x) == Iter(TimesE, j, x) { Shift997(j, x); }
    ShiftTimes(Times997, j, p, v);
  }

  lemma Power998Times(j: nat, p: nat, v: F1024)
    requires 997 < j < 999
    ensures Iter(Times998, p, v) == Shift(j * p, v)
  {
    forall x ensures Times998(x) == Iter(TimesE, j, x) { Shift998(j, x); }
    ShiftTimes(Times998, j, p, v);
  }

  lemma Power999Times(j: nat, p: nat, v: F1024)
    requires 998 < j < 1000
    ensures Iter(Times999, p, v) == Shift(j * p, v)
  {
    forall x ensures Times999(x) == Iter(TimesE, j, x) { Shift999(j, x); }
    ShiftTimes(Times999, j, p, v);
  }
}

/** The log and exponent tables of src/bech32.cpp (GenerateGFTables). */
module Bech32Tables {
  import opened Bech32Field
  import opened Bech32Ext
  import opened Bech32Powers
  import opened Bech32Order
  import opened Iteration
  import opened Counting

  // ---------- Powers of x in GF(32) ----------

  /** x^n. */
  function XPow(n: nat): F32 { Iter(TimesX, n, ONE) }

  lemma XTimes(a: F32, b: F32)
    ensures Mul(TimesX(a), b) == TimesX(Mul(a, b))
  {
    MulComm(TimesX(a), b);
    MulX(b, a);
    MulComm(a, b);
  }

  lemma XPowTimes(n: nat, v: F32)
    ensures Mul(XPow(n), v) == Iter(TimesX, n, v)
  {
    var g := (x: F32) => Mul(x, v);
    forall x ensures g(TimesX(x)) == TimesX(g(x)) { XTimes(x, v); }
    IterCommute(TimesX, g, n, ONE);
    MulOne(v);
  }

  lemma XPowSum(m: nat, n: nat)
    ensures Mul(XPow(m), XPow(n)) == XPow(m + n)
  {
    XPowTimes(m, XPow(n));
    IterSum(TimesX, m, n, ONE);
  }

  lemma XInjection()
    ensures Injective(TimesX)
  {
  }

  lemma XSquare(n: nat, c: F32)
    requires XPow(n) == c
    ensures XPow(2 * n) == Square32(c)
  {
    XPowSum(n, n);
    Square32Is(c);
  }

  /** x^32 = x, so x^31 = 1. */
  lemma XPeriod(p: nat)
    requires 30 < p < 32
    ensures XPow(p) == ONE
  {
    var n: nat :| 0 < n < 2;
    var c := XPow(n);
    var c1 := Square32(c);
    var c2 := Square32(c1);
    var c3 := Square32(c2);
    XSquare(n, c);
    XSquare(2 * n, c1);
    XSquare(4 * n, c2);
    XSquare(8 * n, c3);
    XSquare(16 * n, Square32(c3));
    Frobenius(c);
    XInjection();
    IterApart(TimesX, ONE, n, 32 * n);
  }

  lemma XNoDivisor(p: nat, m: nat, q: nat)
    requires 30 < p < 32
    ensures NoDivisor(TimesX, ONE, p, m, q)
  {
    if 0 < m < p && p == q * m {
      PrimeDivisor(m, q);
      assert XPow(m) == TimesX(Iter(TimesX, m - 1, ONE));
    }
  }

  lemma PrimeDivisor(m: nat, q: nat)
    requires 0 < m < 31 && 31 == q * m
    ensures m == 1
  {
    assert m != 2 && m != 3 && m != 4 && m != 5 && m != 6 && m != 7 && m != 8 && m != 9 && m != 10 && m != 11;
    assert m != 12 && m != 13 && m != 14 && m != 15 && m != 16 && m != 17 && m != 18 && m != 19 && m != 20 && m != 21;
    assert m != 22 && m != 23 && m != 24 && m != 25 && m != 26 && m != 27 && m != 28 && m != 29 && m != 30;
  }

  lemma XOrder(p: nat, d: nat)
    requires 30 < p < 32 && 0 < d < p
    ensures XPow(d) != ONE
  {
    XPeriod(p);
    forall m: nat, q: nat ensures NoDivisor(TimesX, ONE, p, m, q) { XNoDivisor(p, m, q); }
    NoSmallerPeriod(TimesX, ONE, p, d);
  }

  lemma XPowInjective(i: nat, j: nat)
    requires i <= j < 31 && XPow(i) == XPow(j)
    ensures i == j
  {
    XInjection();
    IterApart(TimesX, ONE, i, j);
    if i < j {
      XOrder(31, j - i);
    }
  }

  lemma XPowMod(p: nat, n: nat)
    requires 30 < p < 32
    ensures XPow(n % p) == XPow(n)
  {
    XPeriod(p);
    IterMod(TimesX, ONE, p, n);
  }

  lemma XPowNonZero(n: nat)
    ensures XPow(n) != ZERO
  {
    IterFixed(TimesX, n, ZERO);
    XInjection();
    if XPow(n) == ZERO {
      IterInjective(TimesX, n, ONE, ZERO);
    }
  }

  lemma CodeInjective(a: F32, b: F32)
    requires Code(a) == Code(b)
    ensures a == b
  {
    SymbolOfCode(a);
    SymbolOfCode(b);
  }

  lemma XPowCodes(f: nat -> int)
    requires forall i: nat {:trigger f(i)} :: f(i) == Code(XPow(i))
    ensures DistinctUpTo(f, 31) && forall i: nat {:trigger f(i)} :: 0 < f(i) <= 31
  {
    forall i: nat, j: nat | i < j < 31 ensures f(i) != f(j) {
      if f(i) == f(j) {
        CodeInjective(XPow(i), XPow(j));
        XPowInjective(i, j);
      }
    }
    forall i: nat ensures 0 < f(i) <= 31 {
      XPowNonZero(i);
      if f(i) == 0 {
        CodeInjective(XPow(i), ZERO);
      }
    }
  }

  lemma XPowOnto(v: F32) returns (n: nat)
    requires v != ZERO
    ensures n < 31 && XPow(n) == v
  {
    var f := (i: nat) => Code(XPow(i));
    XPowCodes(f);
    if Code(v) == 0 {
      CodeInjective(v, ZERO);
    }
    n := Onto(f, 31, Code(v));
    CodeInjective(XPow(n), v);
  }

  // ---------- The tables of GF(32) ----------

  ghost predicate ExpAt(exp: seq<F32>, i: int) { 0 <= i < |exp| ==> exp[i] == XPow(i) }

  ghost predicate LogAt(log: seq<int>, i: int) { 0 <= i < 31 ==> |log| == 32 && log[Code(XPow(i))] == i }

  ghost predicate SmallTables(exp: seq<F32>, log: seq<int>) {
    && |exp| == 31 && |log| == 32
    && (forall i {:trigger ExpAt(exp, i)} :: ExpAt(exp, i))
    && (forall i {:trigger LogAt(log, i)} :: LogAt(log, i))
  }

  method GF32Tables() returns (exp: seq<F32>, log: seq<int>)
    ensures SmallTables(exp, log)
  {
    var e := new F32[31](_ => ZERO);
    var l := new int[32](_ => 0);
    e[0] := ONE;
    l[0], l[1] := -1, 0;
    var v := ONE;
    assert XPow(0) == ONE && Code(ONE) == 1;
    for i := 1 to 31
      invariant v == XPow(i - 1)
      invariant forall k {:trigger XPow(k)} :: 0 <= k < i ==> e[k] == XPow(k) && l[Code(XPow(k))] == k
    {
      v := TimesX(v);
      forall k | 0 <= k < i ensures Code(XPow(k)) != Code(v) {
        if Code(XPow(k)) == Code(v) {
          CodeInjective(XPow(k), XPow(i));
          XPowInjective(k, i);
        }
      }
      e[i] := v;
      l[Code(v)] := i;
    }
    exp, log := e[..], l[..];
    forall i ensures ExpAt(exp, i) && LogAt(log, i) {}
  }

  lemma LogOf(exp: seq<F32>, log: seq<int>, v: F32)
    requires SmallTables(exp, log) && v != ZERO
    ensures 0 <= log[Code(v)] < 31 && XPow(log[Code(v)]) == v
  {
    var n := XPowOnto(v);
    assert LogAt(log, n);
  }

  /** A product looked up: EXP[(LOG[a] + LOG[b]) mod 31]. */
  function Product(exp: seq<F32>, log: seq<int>, a: F32, b: F32): F32
    requires |exp| == 31 && |log| == 32
  {
    if a == ZERO then ZERO else exp[(log[Code(a)] + log[Code(b)]) % 31]
  }

  lemma ProductIs(exp: seq<F32>, log: seq<int>, a: F32, b: F32)
    requires SmallTables(exp, log) && b != ZERO
    ensures Product(exp, log, a, b) == Mul(a, b)
  {
    if a == ZERO {
      MulOne(b);
    } else {
      var i, j := log[Code(a)], log[Code(b)];
      LogOf(exp, log, a);
      LogOf(exp, log, b);
      XPowSum(i, j);
      XPowMod(31, i + j);
      assert ExpAt(exp, (i + j) % 31);
    }
  }

  // ---------- The tables of GF(1024) ----------

  ghost predicate PowerAt(exp: seq<F1024>, i: int) { 0 <= i < |exp| ==> exp[i] == Pow(i) }

  ghost predicate PowerLogAt(log: seq<int>, i: int) { 0 <= i < 1023 ==> |log| == 1024 && log[Index(Pow(i))] == i }

  ghost predicate Tables(exp: seq<F1024>, log: seq<int>) {
    && |exp| == 1023 && |log| == 1024 && log[0] == -1
    && (forall i {:trigger PowerAt(exp, i)} :: PowerAt(exp, i))
    && (forall i {:trigger PowerLogAt(log, i)} :: PowerLogAt(log, i))
  }

  /** e v computed through the tables of GF(32). */
  method Next(exp32: seq<F32>, log32: seq<int>, v: F1024) returns (w: F1024)
    requires SmallTables(exp32, log32)
    ensures w == TimesE(v)
  {
    var v0n := if v.hi != ZERO then exp32[LookUp(exp32, log32, v.hi, F(23))] else ZERO;
    var v1n := if v.hi != ZERO then exp32[LookUp(exp32, log32, v.hi, F(9))] else ZERO;
    w := F1024(Add(v1n, v.lo), v0n);
    Symbols9And23();
    ProductIs(exp32, log32, v.hi, F(23));
    ProductIs(exp32, log32, v.hi, F(9));
    MulComm(v.hi, F(23));
    MulComm(v.hi, F(9));
    TwentyThreeIs(v.hi);
    NineIsNine(v.hi);
  }

  lemma Symbols9And23()
    ensures F(9) != ZERO && F(23) != ZERO
  {
  }

  /** The index (LOG[a] + LOG[b]) mod 31. */
  function LookUp(exp: seq<F32>, log: seq<int>, a: F32, b: F32): (i: nat)
    requires |exp| == 31 && |log| == 32
    ensures i < 31
  {
    (log[Code(a)] + log[Code(b)]) % 31
  }

  lemma PowDistinct(k: nat, i: nat)
    requires k < i < 1023
    ensures Index(Pow(k)) != Index(Pow(i))
  {
    if Index(Pow(k)) == Index(Pow(i)) {
      IndexInjective(Pow(k), Pow(i));
      PowInjective(k, i);
    }
  }

  lemma FirstIndices()
    ensures Pow(0) == UNIT && Index(UNIT) == 1 && Index(NOUGHT) == 0
  {
  }

  ghost predicate NextPower(pow: nat -> F1024, i: nat) { TimesE(pow(i)) == pow(i + 1) }

  ghost predicate Apart(pow: nat -> F1024, k: nat, i: nat) {
    k < i < 1023 ==> Index(pow(i)) > 0 && Index(pow(k)) != Index(pow(i))
  }

  /** What the loop below needs to know about the powers it lists. */
  ghost predicate Lists(pow: nat -> F1024) {
    && pow(0) == UNIT
    && (forall i: nat {:trigger NextPower(pow, i)} :: NextPower(pow, i))
    && (forall k: nat, i: nat {:trigger Apart(pow, k, i)} :: Apart(pow, k, i))
  }

  lemma PowLists()
    ensures Lists(Pow)
  {
    FirstIndices();
    forall i: nat ensures NextPower(Pow, i) {}
    forall k: nat, i: nat ensures Apart(Pow, k, i) {
      if k < i < 1023 {
        PowDistinct(k, i);
        PowNonZero(i);
        IndexPositive(Pow(i));
      }
    }
  }

  ghost predicate Filled(e: seq<F1024>, l: seq<int>, pow: nat -> F1024, k: nat) {
    |e| == 1023 && |l| == 1024 && k < 1023 && e[k] == pow(k) && l[Index(pow(k))] == k
  }

  ghost predicate FilledTo(e: seq<F1024>, l: seq<int>, pow: nat -> F1024, i: nat) {
    |l| == 1024 && l[0] == -1 && forall k: nat {:trigger Filled(e, l, pow, k)} :: k < i ==> Filled(e, l, pow, k)
  }

  lemma FillNext(e: seq<F1024>, l: seq<int>, pow: nat -> F1024, i: nat, v: F1024)
    requires Lists(pow) && 0 < i < 1023 && |e| == 1023 && FilledTo(e, l, pow, i) && v == pow(i)
    ensures FilledTo(e[i := v], l[Index(v) := i], pow, i + 1)
  {
    var e', l' := e[i := v], l[Index(v) := i];
    assert Apart(pow, 0, i);
    forall k: nat | k < i + 1 ensures Filled(e', l', pow, k) {
      assert k < i ==> Filled(e, l, pow, k);
      assert Apart(pow, k, i);
    }
  }

  /** The second loop of GenerateGFTables. */
  method FillTables(exp32: seq<F32>, log32: seq<int>, ghost pow: nat -> F1024) returns (exp: seq<F1024>, log: seq<int>)
    requires SmallTables(exp32, log32) && Lists(pow)
    ensures |exp| == 1023 && FilledTo(exp, log, pow, 1023)
  {
    var e := new F1024[1023](_ => NOUGHT);
    var l := new int[1024](_ => 0);
    e[0] := UNIT;
    l[0], l[1] := -1, 0;
    FirstIndices();
    var v := UNIT;
    for i := 1 to 1023
      invariant v == pow(i - 1) && FilledTo(e[..], l[..], pow, i)
    {
      assert NextPower(pow, i - 1);
      v := Next(exp32, log32, v);
      FillNext(e[..], l[..], pow, i, v);
      e[i] := v;
      l[Index(v)] := i;
    }
    exp, log := e[..], l[..];
  }

  method GenerateGFTables() returns (exp: seq<F1024>, log: seq<int>)
    ensures Tables(exp, log)
  {
    var exp32, log32 := GF32Tables();
    PowLists();
    exp, log := FillTables(exp32, log32, Pow);
    FilledTables(exp, log);
  }

  lemma FilledTables(exp: seq<F1024>, log: seq<int>)
    requires |exp| == 1023 && FilledTo(exp, log, Pow, 1023)
    ensures Tables(exp, log)
  {
    forall i ensures PowerAt(exp, i) && PowerLogAt(log, i) {
      assert 0 <= i < 1023 ==> Filled(exp, log, Pow, i);
    }
  }

  /** The log table inverts the powers on every non-zero element. */
  lemma TableLog(exp: seq<F1024>, log: seq<int>, v: F1024)
    requires Tables(exp, log) && v != NOUGHT
    ensures 0 <= log[Index(v)] < 1023 && Pow(log[Index(v)]) == v
  {
    var n := PowOnto(v);
    assert PowerLogAt(log, n);
  }

  lemma TableLogOfPow(exp: seq<F1024>, log: seq<int>, n: nat)
    requires Tables(exp, log)
    ensures log[Index(Pow(n))] == n % 1023
  {
    PowMod(n);
    assert PowerLogAt(log, n % 1023);
  }
}

/** Shifts of base_uint (src/arith_uint256.cpp). */
module ArithShift {
  import opened Limbs

  function Pow2(s: nat): (p: nat)
    ensures p > 0
  {
    if s == 0 then 1 else 2 * Pow2(s - 1)
  }

  lemma {:induction false} Pow2Sum(m: nat, n: nat)
    ensures Pow2(m + n) == Pow2(m) * Pow2(n)
  {
    if m > 0 {
      Pow2Sum(m - 1, n);
      assert 2 * (Pow2(m - 1) * Pow2(n)) == Pow2(m) * Pow2(n);
    }
  }

  lemma Pow2Limb()
    ensures Pow2(32) == BASE
  {
    assert Pow2(8) == 256;
    Pow2Sum(8, 8);
    Pow2Sum(16, 16);
  }

  lemma {:induction false} Pow2Modulus(k: nat)
    ensures Pow2(32 * k) == Modulus(k)
  {
    if k > 0 {
      Pow2Modulus(k - 1);
      Pow2Limb();
      Pow2Sum(32, 32 * (k - 1));
    }
  }

  // ---------- Bitwise or ----------

  function BitOr(a: nat, b: nat): nat {
    if a == 0 then b else if b == 0 then a
    else 2 * BitOr(a / 2, b / 2) + if a % 2 == 1 || b % 2 == 1 then 1 else 0
  }

  /** Bits below s and bits from s up do not meet. */
  lemma {:induction false} DisjointOr(x: nat, y: nat, s: nat, k: nat)
    requires x < Pow2(s) && y == Pow2(s) * k
    ensures BitOr(x, y) == x + y
    decreases s
  {
    if s > 0 && x > 0 && y > 0 {
      assert y == 2 * (Pow2(s - 1) * k);
      DisjointOr(x / 2, y / 2, s - 1, k);
    }
  }

  // ---------- The factors of one limb ----------

  /** S = 2^s and D = 2^(32 - s) split a limb. */
  ghost predicate Factors(s: nat, S: int, D: int) { s < 32 && S == Pow2(s) && D == Pow2(32 - s) && S * D == BASE }

  lemma FactorsOf(s: nat)
    requires s < 32
    ensures Factors(s, Pow2(s), Pow2(32 - s))
  {
    Pow2Sum(s, 32 - s);
    Pow2Limb();
  }

  /** A limb times S: what stays and what moves up. */
  lemma LimbTimes(x: Limb, s: nat, S: int, D: int, c: nat)
    requires Factors(s, S, D) && c < S
    ensures (S * x) % BASE == S * (x % D) && (S * x) / BASE == x / D
    ensures (c + S * x) % BASE == c + S * (x % D) && (c + S * x) / BASE == x / D && 0 <= x / D < S
  {
    var q, r := x / D, x % D;
    assert x == D * q + r;
    assert S * x == BASE * q + S * r by { assert S * (D * q) == (S * D) * q; }
    assert S * r + S <= BASE by { Gap(S, r, D); }
    assert 0 <= S * r by { Sign(S, r); }
    ModUnique(S * x, BASE, q, S * r);
    ModUnique(c + S * x, BASE, q, c + S * r);
    QuotientBound(x, S, D);
  }

  lemma Gap(S: int, r: int, D: int)
    requires 0 <= r < D && S > 0
    ensures S * r + S <= S * D
  {
    assert S * (r + 1) <= S * D;
  }

  lemma Sign(a: int, b: int)
    requires a >= 0 && b >= 0
    ensures a * b >= 0
  {
  }

  lemma QuotientBound(x: Limb, S: int, D: int)
    requires S > 0 && D > 0 && S * D == BASE
    ensures 0 <= x / D < S
  {
    MulMonotone(D, S, x / D);
  }

  lemma MulMonotone(d: int, a: int, b: int)
    requires d > 0
    ensures a <= b ==> d * a <= d * b
  {
  }

  // ---------- Left ----------

  /** Limb i of S a. */
  function LeftLimb(a: seq<Limb>, S: int, D: int, i: nat): int
    requires i < |a| && D > 0
  {
    S * (a[i] % D) + if i == 0 then 0 else a[i - 1] / D
  }

  lemma {:induction false} CarriedAt(a: seq<Limb>, s: nat, S: int, D: int, c: nat, i: nat)
    requires Factors(s, S, D) && c < S && i < |a|
    ensures Carried(Scaled(S, a), c)[i] == S * (a[i] % D) + if i == 0 then c else a[i - 1] / D
    decreases |a|
  {
    var t := Scaled(S, a);
    LimbTimes(a[0], s, S, D, c);
    assert t[1..] == Scaled(S, a[1..]);
    if i > 0 {
      CarriedAt(a[1..], s, S, D, a[0] / D, i - 1);
      assert Carried(t, c)[i] == Carried(t[1..], a[0] / D)[i - 1];
    }
  }

  /** The limbs of a shifted up by k limbs and s bits, cut off at the width. */
  ghost function LeftTarget(a: seq<Limb>, k: nat, S: int): (r: seq<Limb>)
    ensures |r| == |a|
  {
    var n := if k < |a| then |a| - k else 0;
    seq(|a| - n, _ => 0) + Carried(Scaled(S, a[..n]), 0)
  }

  lemma TargetAt(a: seq<Limb>, k: nat, s: nat, S: int, D: int, m: nat)
    requires Factors(s, S, D) && m < |a|
    ensures LeftTarget(a, k, S)[m] == if m < k then 0 else LeftLimb(a, S, D, m - k)
  {
    if m >= k {
      CarriedAt(a[..|a| - k], s, S, D, 0, m - k);
    }
  }

  /** What position m holds after i rounds: finished below i + k, the part moved up from the
      previous limb at i + k, nothing above. */
  ghost predicate LeftAt(p: seq<int>, a: seq<Limb>, k: nat, S: int, D: int, i: nat, m: int) {
    D > 0 && 0 <= m < |a| == |p| && i <= |a| ==>
      p[m] == if m < k then 0
              else if m - k < i then LeftLimb(a, S, D, m - k)
              else if m - k == i && i > 0 then a[i - 1] / D
              else 0
  }

  ghost predicate Lefting(p: seq<int>, a: seq<Limb>, k: nat, S: int, D: int, i: nat) {
    |p| == |a| && forall m {:trigger LeftAt(p, a, k, S, D, i, m)} :: LeftAt(p, a, k, S, D, i, m)
  }

  /** The two bit patterns or-ed into one limb do not meet. */
  lemma LeftOr(a: seq<Limb>, s: nat, S: int, D: int, i: nat)
    requires Factors(s, S, D) && i < |a|
    ensures 0 <= LeftLimb(a, S, D, i) < BASE && (S * a[i]) % BASE == S * (a[i] % D)
    ensures i > 0 ==> BitOr(a[i - 1] / D, (S * a[i]) % BASE) == LeftLimb(a, S, D, i)
  {
    var c := if i == 0 then 0 else a[i - 1] / D;
    if i > 0 {
      LimbTimes(a[i - 1], s, S, D, 0);
    }
    LimbTimes(a[i], s, S, D, c);
    DisjointOr(c, S * (a[i] % D), s, a[i] % D);
  }

  /** One round of the loop on values. */
  ghost function LeftRound(p: seq<int>, a: seq<Limb>, k: nat, S: int, D: int, i: nat): seq<int>
    requires i < |a| == |p| && D > 0
  {
    var q := if i + k + 1 < |a| then p[i + k + 1 := a[i] / D] else p;
    if i + k < |a| then q[i + k := LeftLimb(a, S, D, i)] else q
  }

  lemma LeftStep(p: seq<int>, a: seq<Limb>, k: nat, S: int, D: int, i: nat)
    requires i < |a| && Lefting(p, a, k, S, D, i) && D > 0
    ensures Lefting(LeftRound(p, a, k, S, D, i), a, k, S, D, i + 1)
  {
    var q, j := LeftRound(p, a, k, S, D, i), i + 1;
    forall m ensures LeftAt(q, a, k, S, D, j, m) { assert LeftAt(p, a, k, S, D, i, m); }
  }

  lemma {:induction false} ZerosValue(n: nat, x: seq<int>)
    ensures Value(seq(n, _ => 0) + x) == Modulus(n) * Value(x)
  {
    var z: seq<int> := seq(n, _ => 0);
    if n == 0 {
      assert z + x == x;
    } else {
      ZerosValue(n - 1, x);
      assert (z + x)[1..] == seq(n - 1, _ => 0) + x;
    }
  }

  lemma LeftAlgebra(v: int, mk: int, mn: int, co: int, lo: int, hi: int, S: int, x: int, m: int, p: int)
    requires v + mn * co == S * lo && x == lo + mn * hi && m == mk * mn && p == mk * S
    ensures x * p == m * (co + S * hi) + mk * v
  {
    assert x * p == mk * (S * lo) + (mk * mn) * (S * hi);
    assert mk * (v + mn * co) == mk * v + (mk * mn) * co;
  }

  lemma ShiftFactor(k: nat, s: nat)
    ensures Pow2(32 * k + s) == Modulus(k) * Pow2(s)
  {
    Pow2Sum(32 * k, s);
    Pow2Modulus(k);
  }

  lemma LeftInside(a: seq<Limb>, k: nat, s: nat)
    requires k < |a|
    ensures Value(LeftTarget(a, k, Pow2(s))) == (Value(a) * Pow2(32 * k + s)) % Modulus(|a|)
  {
    var n, S := |a| - k, Pow2(s);
    var t := Scaled(S, a[..n]);
    var x := Carried(t, 0);
    CarriedValue(t, 0);
    ScaledValue(S, a[..n]);
    ValueConcat(a[..n], a[n..]);
    assert a == a[..n] + a[n..];
    ModulusSum(k, n);
    ShiftFactor(k, s);
    ZerosValue(k, x);
    LeftAlgebra(Value(x), Modulus(k), Modulus(n), CarryOut(t, 0), Value(a[..n]), Value(a[n..]), S, Value(a), Modulus(|a|), Pow2(32 * k + s));
    ValueBound(LeftTarget(a, k, S));
    ModUnique(Value(a) * Pow2(32 * k + s), Modulus(|a|), CarryOut(t, 0) + S * Value(a[n..]), Modulus(k) * Value(x));
  }

  lemma LeftOutside(a: seq<Limb>, k: nat, s: nat)
    requires k >= |a|
    ensures Value(LeftTarget(a, k, Pow2(s))) == (Value(a) * Pow2(32 * k + s)) % Modulus(|a|)
  {
    var m, j := Modulus(|a|), k - |a|;
    ZerosValue(|a|, []);
    assert a[..0] == [];
    ShiftFactor(k, s);
    ModulusSum(|a|, j);
    OutsideMod(Value(a), m, Modulus(j), Pow2(s), Pow2(32 * k + s));
  }

  lemma OutsideMod(v: int, m: nat, mj: int, S: int, p: int)
    requires m > 0 && p == (m * mj) * S
    ensures (v * p) % m == 0
  {
    var q := v * (mj * S);
    assert v * p == m * q;
    ModUnique(v * p, m, q, 0);
  }

  /** Copies pn and sets it to zero. */
  method TakeOut(pn: array<Limb>) returns (a: array<Limb>)
    modifies pn
    ensures fresh(a) && a.Length == pn.Length && a[..] == old(pn[..])
    ensures forall m :: 0 <= m < pn.Length ==> pn[m] == 0
  {
    a := new Limb[pn.Length](i requires 0 <= i < pn.Length reads pn => pn[i]);
    for i := 0 to pn.Length
      invariant a[..] == old(pn[..]) && forall m :: 0 <= m < i ==> pn[m] == 0
    {
      pn[i] := 0;
    }
  }

  method ShiftLeft(pn: array<Limb>, shift: nat)
    modifies pn
    ensures Value(pn[..]) == (old(Value(pn[..])) * Pow2(shift)) % Modulus(pn.Length)
  {
    var a := TakeOut(pn);
    var k, s := shift / 32, shift % 32;
    LeftLoop(pn, a, k, s);
    if k < pn.Length {
      LeftInside(a[..], k, s);
    } else {
      LeftOutside(a[..], k, s);
    }
  }

  method LeftLoop(pn: array<Limb>, a: array<Limb>, k: nat, s: nat)
    requires pn != a && pn.Length == a.Length && s < 32 && forall m :: 0 <= m < pn.Length ==> pn[m] == 0
    modifies pn
    ensures pn[..] == LeftTarget(a[..], k, Pow2(s))
  {
    var S, D := Pow2(s), Pow2(32 - s);
    FactorsOf(s);
    forall m ensures LeftAt(pn[..], a[..], k, S, D, 0, m) {}
    for i := 0 to pn.Length
      invariant Lefting(pn[..], a[..], k, S, D, i)
    {
      LeftStep(pn[..], a[..], k, S, D, i);
      assert LeftAt(pn[..], a[..], k, S, D, i, i + k) && LeftAt(pn[..], a[..], k, S, D, i, i + k + 1);
      LeftWrite(pn, a, i, k, s, S, D);
    }
    LeftDone(pn[..], a[..], k, s, S, D);
  }

  /** The body of the loop. */
  method LeftWrite(pn: array<Limb>, a: array<Limb>, i: nat, k: nat, s: nat, S: int, D: int)
    requires pn != a && i < pn.Length == a.Length && Factors(s, S, D)
    requires i + k + 1 < pn.Length ==> pn[i + k + 1] == 0
    requires i + k < pn.Length ==> pn[i + k] == if i > 0 then a[i - 1] / D else 0
    modifies pn
    ensures pn[..] == LeftRound(old(pn[..]), a[..], k, S, D, i)
  {
    LeftOr(a[..], s, S, D, i);
    LimbTimes(a[i], s, S, D, 0);
    if i + k + 1 < pn.Length && s != 0 {
      pn[i + k + 1] := BitOr(pn[i + k + 1], a[i] / D);
    }
    if i + k < pn.Length {
      pn[i + k] := BitOr(pn[i + k], (S * a[i]) % BASE);
    }
  }

  lemma LeftDone(p: seq<Limb>, a: seq<Limb>, k: nat, s: nat, S: int, D: int)
    requires Factors(s, S, D) && Lefting(p, a, k, S, D, |a|)
    ensures p == LeftTarget(a, k, S)
  {
    forall m | 0 <= m < |a| ensures p[m] == LeftTarget(a, k, S)[m] {
      assert LeftAt(p, a, k, S, D, |a|, m);
      TargetAt(a, k, s, S, D, m);
    }
  }
}

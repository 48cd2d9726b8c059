/** Right shift of base_uint (src/arith_uint256.cpp). */
module ArithShiftRight {
  import opened Limbs
  import opened ArithShift

  /** Limb i of a shifted down by s bits. */
  function RightLimb(a: seq<Limb>, S: int, D: int, i: nat): int
    requires i < |a| && S > 0
  {
    a[i] / S + if i + 1 < |a| then D * (a[i + 1] % S) else 0
  }

  function RightLimbs(a: seq<Limb>, S: int, D: int): seq<int>
    requires S > 0
  {
    seq(|a|, i requires 0 <= i < |a| => RightLimb(a, S, D, i))
  }

  lemma FactorsSwap(s: nat, S: int, D: int)
    requires 0 < s && Factors(s, S, D)
    ensures Factors(32 - s, D, S)
  {
  }

  lemma RightAlgebra(x: int, rest: int, S: int, D: int, next: int)
    requires S > 0 && S * D == BASE && 0 <= x && rest >= 0 && next == rest % S
    ensures (x + BASE * rest) / S == (x / S + D * next) + BASE * (rest / S)
  {
    var q, r := x / S, x % S;
    var u := rest / S;
    assert rest == S * u + next;
    assert BASE * rest == S * (D * rest);
    assert D * rest == BASE * u + D * next by { assert D * (S * u) == (S * D) * u; }
    assert x + BASE * rest == S * (q + (BASE * u + D * next)) + r;
    ModUnique(x + BASE * rest, S, q + (BASE * u + D * next), r);
  }

  lemma LowBits(x: Limb, rest: int, S: int, D: int)
    requires S > 0 && S * D == BASE && rest >= 0
    ensures (x + BASE * rest) % S == x % S
  {
    assert x + BASE * rest == S * (x / S + D * rest) + x % S by { assert BASE * rest == S * (D * rest); }
    ModUnique(x + BASE * rest, S, x / S + D * rest, x % S);
  }

  lemma {:induction false} RightValue(a: seq<Limb>, S: int, D: int)
    requires S > 0 && S * D == BASE
    ensures Value(RightLimbs(a, S, D)) == Value(a) / S
  {
    if a != [] {
      var tail := a[1..];
      RightValue(tail, S, D);
      ValueBound(tail);
      assert RightLimbs(a, S, D)[1..] == RightLimbs(tail, S, D);
      var next := if |a| > 1 then a[1] % S else 0;
      if |a| > 1 {
        ValueBound(tail[1..]);
        LowBits(a[1], Value(tail[1..]), S, D);
      }
      RightAlgebra(a[0], Value(tail), S, D, next);
    }
  }

  // ---------- The loop ----------

  /** What position m holds after i rounds. */
  ghost predicate RightAt(p: seq<int>, a: seq<Limb>, k: nat, S: int, D: int, i: nat, m: int) {
    S > 0 && 0 <= m < |a| == |p| && i <= |a| ==>
      p[m] == if m + k + 1 < i then RightLimb(a, S, D, m + k)
              else if m + k + 1 == i then a[m + k] / S
              else 0
  }

  ghost predicate Righting(p: seq<int>, a: seq<Limb>, k: nat, S: int, D: int, i: nat) {
    |p| == |a| && forall m {:trigger RightAt(p, a, k, S, D, i, m)} :: RightAt(p, a, k, S, D, i, m)
  }

  ghost function RightRound(p: seq<int>, a: seq<Limb>, k: nat, S: int, D: int, i: nat): seq<int>
    requires i < |a| == |p| && S > 0
  {
    var q := if i >= k + 1 then p[i - k - 1 := RightLimb(a, S, D, i - 1)] else p;
    if i >= k then q[i - k := a[i] / S] else q
  }

  lemma RightStep(p: seq<int>, a: seq<Limb>, k: nat, S: int, D: int, i: nat)
    requires i < |a| && Righting(p, a, k, S, D, i) && S > 0
    ensures Righting(RightRound(p, a, k, S, D, i), a, k, S, D, i + 1)
  {
    var q, j := RightRound(p, a, k, S, D, i), i + 1;
    forall m ensures RightAt(q, a, k, S, D, j, m) { assert RightAt(p, a, k, S, D, i, m); }
  }

  /** The two bit patterns or-ed into one limb do not meet. */
  lemma RightOr(a: seq<Limb>, s: nat, S: int, D: int, i: nat)
    requires Factors(s, S, D) && 0 < i < |a|
    ensures 0 <= a[i - 1] / S < BASE
    ensures s > 0 ==> 0 <= D * (a[i] % S) && (D * a[i]) % BASE == D * (a[i] % S)
                      && BitOr(a[i - 1] / S, D * (a[i] % S)) == RightLimb(a, S, D, i - 1) < BASE
    ensures s == 0 ==> a[i - 1] / S == RightLimb(a, S, D, i - 1)
  {
    if s > 0 {
      FactorsSwap(s, S, D);
      LimbTimes(a[i - 1], 32 - s, D, S, 0);
      LimbTimes(a[i], 32 - s, D, S, a[i - 1] / S);
      Sign(D, a[i] % S);
      DisjointOr(a[i - 1] / S, D * (a[i] % S), 32 - s, a[i] % S);
    } else {
      assert S == 1;
    }
  }

  method RightWrite(pn: array<Limb>, a: array<Limb>, i: nat, k: nat, s: nat, S: int, D: int)
    requires pn != a && i < pn.Length == a.Length && Factors(s, S, D)
    requires i >= k + 1 ==> pn[i - k - 1] == a[i - 1] / S
    requires i >= k ==> pn[i - k] == 0
    modifies pn
    ensures pn[..] == RightRound(old(pn[..]), a[..], k, S, D, i)
  {
    ghost var p: seq<int> := pn[..];
    if i >= k + 1 {
      RightOr(a[..], s, S, D, i);
      if s != 0 {
        pn[i - k - 1] := BitOr(pn[i - k - 1], (D * a[i]) % BASE);
      }
      assert pn[..] == p[i - k - 1 := RightLimb(a[..], S, D, i - 1)];
    }
    if i >= k {
      DivBound(a[i], S);
      pn[i - k] := BitOr(pn[i - k], a[i] / S);
    }
  }

  lemma DivBound(x: Limb, S: int)
    requires S > 0
    ensures 0 <= x / S <= x
  {
    assert S * (x / S) <= x;
    if x / S > 0 {
      MulGrows(x / S, S);
    }
  }

  method RightLoop(pn: array<Limb>, a: array<Limb>, k: nat, s: nat)
    requires pn != a && pn.Length == a.Length && s < 32 && forall m :: 0 <= m < pn.Length ==> pn[m] == 0
    modifies pn
    ensures Righting(pn[..], a[..], k, Pow2(s), Pow2(32 - s), a.Length)
  {
    var S, D := Pow2(s), Pow2(32 - s);
    FactorsOf(s);
    forall m ensures RightAt(pn[..], a[..], k, S, D, 0, m) {}
    for i := 0 to pn.Length
      invariant Righting(pn[..], a[..], k, S, D, i)
    {
      RightStep(pn[..], a[..], k, S, D, i);
      assert RightAt(pn[..], a[..], k, S, D, i, i - k - 1) && RightAt(pn[..], a[..], k, S, D, i, i - k);
      RightWrite(pn, a, i, k, s, S, D);
    }
  }

  // ---------- Its value ----------

  lemma RightInside(p: seq<Limb>, a: seq<Limb>, k: nat, S: int, D: int)
    requires S > 0 && k <= |a| && Righting(p, a, k, S, D, |a|)
    ensures p == RightLimbs(a[k..], S, D) + seq(k, _ => 0)
  {
    var t := RightLimbs(a[k..], S, D) + seq(k, _ => 0);
    forall m | 0 <= m < |a| ensures p[m] == t[m] { assert RightAt(p, a, k, S, D, |a|, m); }
  }

  lemma RightOutside(p: seq<Limb>, a: seq<Limb>, k: nat, S: int, D: int)
    requires S > 0 && k >= |a| && Righting(p, a, k, S, D, |a|)
    ensures forall m :: 0 <= m < |p| ==> p[m] == 0
  {
    forall m | 0 <= m < |p| ensures p[m] == 0 { assert RightAt(p, a, k, S, D, |a|, m); }
  }

  lemma {:induction false} ZerosAre(s: seq<int>)
    requires forall m :: 0 <= m < |s| ==> s[m] == 0
    ensures Value(s) == 0
  {
    if s != [] {
      ZerosAre(s[1..]);
    }
  }

  lemma HighPart(a: seq<Limb>, k: nat)
    requires k <= |a|
    ensures Value(a[k..]) == Value(a) / Modulus(k)
  {
    ValueConcat(a[..k], a[k..]);
    assert a == a[..k] + a[k..];
    ValueBound(a[..k]);
    ModUnique(Value(a), Modulus(k), Value(a[k..]), Value(a[..k]));
  }

  lemma DivDiv(x: int, m: int, S: int)
    requires x >= 0 && m > 0 && S > 0
    ensures m * S > 0 && (x / m) / S == x / (m * S)
  {
    Sign(m, S);
    var q, r := x / m, x % m;
    var u, v := q / S, q % S;
    assert x == (m * S) * u + (m * v + r) by { assert m * (S * u + v) == (m * S) * u + m * v; }
    Gap(m, v, S);
    Sign(m, v);
    ModUnique(x, m * S, u, m * v + r);
  }

  lemma BelowOne(x: int, p: int)
    requires 0 <= x < p
    ensures x / p == 0
  {
    ModUnique(x, p, 0, x);
  }

  lemma {:induction false} ModulusGrows(m: nat, n: nat)
    requires m <= n
    ensures Modulus(m) <= Modulus(n)
  {
    ModulusSum(m, n - m);
    MulGrows(Modulus(m), Modulus(n - m));
  }

  lemma ShiftedRight(p: seq<Limb>, a: seq<Limb>, k: nat, s: nat)
    requires s < 32 && Righting(p, a, k, Pow2(s), Pow2(32 - s), |a|)
    ensures Value(p) == Value(a) / Pow2(32 * k + s)
  {
    var S, D := Pow2(s), Pow2(32 - s);
    FactorsOf(s);
    ShiftFactor(k, s);
    ValueBound(a);
    if k <= |a| {
      RightInside(p, a, k, S, D);
      ValueConcat(RightLimbs(a[k..], S, D), seq(k, _ => 0));
      ZerosAre(seq(k, _ => 0));
      RightValue(a[k..], S, D);
      HighPart(a, k);
      DivDiv(Value(a), Modulus(k), S);
    } else {
      RightOutside(p, a, k, S, D);
      ZerosAre(p);
      ModulusGrows(|a|, k);
      MulGrows(Modulus(k), S);
      BelowOne(Value(a), Pow2(32 * k + s));
    }
  }

  method ShiftRight(pn: array<Limb>, shift: nat)
    modifies pn
    ensures Value(pn[..]) == old(Value(pn[..])) / Pow2(shift)
  {
    var a := TakeOut(pn);
    RightLoop(pn, a, shift / 32, shift % 32);
    ShiftedRight(pn[..], a[..], shift / 32, shift % 32);
  }
}

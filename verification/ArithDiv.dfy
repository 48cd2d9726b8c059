/** Comparison, bit length and division of base_uint (src/arith_uint256.cpp). */
module ArithDiv {
  import opened Limbs
  import opened ArithUint
  import opened ArithShift
  import opened ArithShiftRight

  // ---------- Comparison ----------

  lemma UpTo(a: seq<Limb>, i: nat, x: int)
    requires i < |a| && x == a[i]
    ensures Modulus(i) * x <= Value(a[..i + 1]) < Modulus(i) * (x + 1)
  {
    assert a[..i + 1] == a[..i] + [a[i]];
    ValueConcat(a[..i], [a[i]]);
    assert Value([a[i]]) == x;
    ValueBound(a[..i]);
    OneMore(Modulus(i), x);
  }

  lemma OneMore(m: int, x: int)
    ensures m * (x + 1) == m * x + m
  {
  }

  lemma HighestDiffers(a: seq<Limb>, b: seq<Limb>, i: nat)
    requires i < |a| == |b| && a[i + 1..] == b[i + 1..] && a[i] < b[i]
    ensures Value(a) < Value(b)
  {
    var x: int, y: int := a[i], b[i];
    UpTo(a, i, x);
    UpTo(b, i, y);
    MulMonotone(Modulus(i), x + 1, y);
    ValueConcat(a[..i + 1], a[i + 1..]);
    ValueConcat(b[..i + 1], b[i + 1..]);
    assert a == a[..i + 1] + a[i + 1..] && b == b[..i + 1] + b[i + 1..];
  }

  method CompareTo(pn: array<Limb>, b: array<Limb>) returns (r: int)
    requires pn.Length == b.Length
    ensures r == if Value(pn[..]) < Value(b[..]) then -1 else if Value(pn[..]) > Value(b[..]) then 1 else 0
  {
    var i := pn.Length;
    while i > 0
      invariant 0 <= i <= pn.Length && pn[i..] == b[i..]
    {
      i := i - 1;
      if pn[i] < b[i] {
        HighestDiffers(pn[..], b[..], i);
        return -1;
      }
      if pn[i] > b[i] {
        HighestDiffers(b[..], pn[..], i);
        return 1;
      }
    }
    assert pn[..] == b[..];
    return 0;
  }

  // ---------- Bit length ----------

  /** n is the number of bits of v. */
  ghost predicate BitLength(v: int, n: nat) { if n == 0 then v == 0 else Pow2(n - 1) <= v < Pow2(n) }

  method TopBit(x: Limb) returns (n: nat)
    requires x > 0
    ensures 1 <= n <= 32 && Pow2(n - 1) <= x < Pow2(n)
  {
    Pow2Limb();
    var nbits := 31;
    while nbits > 0
      invariant 0 <= nbits <= 31 && x < Pow2(nbits + 1)
    {
      if x / Pow2(nbits) % 2 == 1 {
        BitSet(x, Pow2(nbits));
        return nbits + 1;
      }
      BitClear(x, Pow2(nbits));
      nbits := nbits - 1;
    }
    return 1;
  }

  lemma BitSet(x: int, p: nat)
    requires p > 0 && x / p % 2 == 1 && x >= 0
    ensures p <= x
  {
    if x < p {
      BelowOne(x, p);
    }
  }

  lemma BitClear(x: int, p: nat)
    requires p > 0 && x / p % 2 != 1 && 0 <= x < 2 * p
    ensures x < p
  {
    if x >= p {
      ModUnique(x, p, 1, x - p);
    }
  }

  lemma OnlyUpTo(a: seq<Limb>, pos: nat)
    requires pos < |a| && forall m :: pos < m < |a| ==> a[m] == 0
    ensures Value(a) == Value(a[..pos + 1])
  {
    ZerosAre(a[pos + 1..]);
    ValueConcat(a[..pos + 1], a[pos + 1..]);
    assert a == a[..pos + 1] + a[pos + 1..];
  }

  lemma LengthFrom(a: seq<Limb>, pos: nat, n: nat, x: int)
    requires pos < |a| && 1 <= n <= 32 && x == a[pos] && Pow2(n - 1) <= x < Pow2(n)
    requires forall m :: pos < m < |a| ==> a[m] == 0
    ensures BitLength(Value(a), 32 * pos + n)
  {
    OnlyUpTo(a, pos);
    UpTo(a, pos, x);
    ShiftFactor(pos, n);
    ShiftFactor(pos, n - 1);
    MulMonotone(Modulus(pos), Pow2(n - 1), x);
    MulMonotone(Modulus(pos), x + 1, Pow2(n));
  }

  method Bits(pn: array<Limb>) returns (n: nat)
    ensures BitLength(Value(pn[..]), n) && n <= 32 * pn.Length
  {
    var pos := pn.Length;
    while pos > 0
      invariant 0 <= pos <= pn.Length && forall m :: pos <= m < pn.Length ==> pn[m] == 0
    {
      pos := pos - 1;
      if pn[pos] != 0 {
        var top := TopBit(pn[pos]);
        LengthFrom(pn[..], pos, top, pn[pos]);
        return 32 * pos + top;
      }
    }
    ZerosAre(pn[..]);
    return 0;
  }

  // ---------- Division ----------

  lemma {:induction false} BitOrComm(a: nat, b: nat)
    ensures BitOr(a, b) == BitOr(b, a)
  {
    if a > 0 && b > 0 {
      BitOrComm(a / 2, b / 2);
    }
  }

  lemma {:induction false} ValueUpdate(a: seq<int>, j: nat, x: int)
    requires j < |a|
    ensures Value(a[j := x]) == Value(a) + Modulus(j) * (x - a[j])
  {
    if j > 0 {
      ValueUpdate(a[1..], j - 1, x);
      assert a[j := x][1..] == a[1..][j - 1 := x];
      assert BASE * (Modulus(j - 1) * (x - a[j])) == Modulus(j) * (x - a[j]);
    } else {
      assert a[j := x][1..] == a[1..];
    }
  }

  /** Limb j of a multiple of 2^(32 j + t + 1) is a multiple of 2^(t + 1). */
  lemma LimbOfMultiple(a: seq<Limb>, j: nat, t: nat, q: nat) returns (c: nat)
    requires j < |a| && t < 32 && Value(a) == Pow2(32 * j + t + 1) * q
    ensures a[j] == Pow2(t + 1) * c && a[j] + Pow2(t + 1) <= BASE
  {
    HighMultiple(a, j, t, q);
    HeadTail(a, j);
    LimbFactors(t);
    c := LowMultiple(a[j], Value(a[j + 1..]), Pow2(t + 1), Pow2(31 - t), q);
  }

  lemma LimbFactors(t: nat)
    requires t < 32
    ensures Pow2(t + 1) * Pow2(31 - t) == BASE
  {
    Pow2Sum(t + 1, 31 - t);
    Pow2Limb();
  }

  lemma HeadTail(a: seq<Limb>, j: nat)
    requires j < |a|
    ensures Value(a[j..]) == a[j] + BASE * Value(a[j + 1..])
  {
    assert a[j..][1..] == a[j + 1..];
  }

  lemma HighMultiple(a: seq<Limb>, j: nat, t: nat, q: nat)
    requires j < |a| && Value(a) == Pow2(32 * j + t + 1) * q
    ensures Value(a[j..]) == Pow2(t + 1) * q
  {
    ShiftFactor(j, t + 1);
    HighPart(a, j);
    ExactQuotient(Value(a), Modulus(j), Pow2(t + 1), q);
  }

  lemma ExactQuotient(v: int, m: nat, P: int, q: int)
    requires m > 0 && v == (m * P) * q
    ensures v / m == P * q
  {
    assert v == m * (P * q);
    ModUnique(v, m, P * q, 0);
  }

  lemma LowMultiple(x: Limb, rest: int, P: nat, R: nat, q: nat) returns (c: nat)
    requires P > 0 && R > 0 && P * R == BASE && x + BASE * rest == P * q
    ensures x == P * c && x + P <= BASE
  {
    var d := q - R * rest;
    assert x == P * d by { assert P * (R * rest) == BASE * rest; }
    if d < 0 {
      MulMonotone(P, d, -1);
    }
    c := d;
    if c >= R {
      MulMonotone(P, R, c);
    }
    MulMonotone(P, c + 1, R);
  }

  method SetBit(pn: array<Limb>, shift: nat, ghost q: nat)
    requires shift < 32 * pn.Length && Value(pn[..]) == Pow2(shift + 1) * q
    modifies pn
    ensures Value(pn[..]) == old(Value(pn[..])) + Pow2(shift)
  {
    var j, t := shift / 32, shift % 32;
    ghost var c := LimbOfMultiple(pn[..], j, t, q);
    ghost var p: seq<int> := pn[..];
    DisjointOr(Pow2(t), pn[j], t + 1, c);
    BitOrComm(pn[j], Pow2(t));
    pn[j] := BitOr(pn[j], Pow2(t));
    assert pn[..] == p[j := pn[j]];
    ValueUpdate(p, j, pn[j]);
    ShiftFactor(j, t);
  }

  /** N = q D + num with div = 2^shift D still to be tried, and everything below. */
  ghost predicate Dividing(N: int, D: int, q: int, num: int, shift: int, part: nat) {
    && -1 <= shift && N == q * D + num && q == Pow2(shift + 1) * part && 0 <= num < D * Pow2(shift + 1)
  }

  lemma Halved(p: int, part: int)
    ensures (2 * p) * part == p * (2 * part)
  {
  }

  lemma DivideSkip(N: int, D: int, q: int, num: int, shift: nat, part: nat, div: int)
    requires Dividing(N, D, q, num, shift, part) && div == D * Pow2(shift) && num < div
    ensures Dividing(N, D, q, num, shift - 1, 2 * part)
  {
    Halved(Pow2(shift), part);
  }

  lemma TakeAlgebra(N: int, D: int, q: int, num: int, p: int, part: int, div: int)
    requires N == q * D + num && q == p * (2 * part) && div == D * p && num < D * (2 * p)
    ensures N == (q + p) * D + (num - div) && q + p == p * (2 * part + 1) && num - div < D * p
  {
    assert (q + p) * D == q * D + D * p;
    assert D * (2 * p) == 2 * (D * p);
  }

  lemma DivideTake(N: int, D: int, q: int, num: int, shift: nat, part: nat, div: int)
    requires Dividing(N, D, q, num, shift, part) && div == D * Pow2(shift) && num >= div
    ensures Dividing(N, D, q + Pow2(shift), num - div, shift - 1, 2 * part + 1)
  {
    Halved(Pow2(shift), part);
    TakeAlgebra(N, D, q, num, Pow2(shift), part, div);
  }

  lemma DivideEnd(N: int, D: int, q: int, num: int, part: nat)
    requires Dividing(N, D, q, num, -1, part) && D > 0
    ensures q == N / D && num == N % D
  {
    ModUnique(N, D, q, num);
  }

  lemma {:induction false} Pow2Grows(m: nat, n: nat)
    requires m <= n
    ensures Pow2(m) <= Pow2(n)
    decreases n
  {
    if m < n {
      Pow2Grows(m, n - 1);
    }
  }

  /** Aligning the divisor with the dividend loses nothing. */
  lemma DivideStart(N: int, D: int, nb: nat, db: nat, s: nat)
    requires BitLength(N, nb) && BitLength(D, db) && 1 <= db && db + s == nb
    ensures Dividing(N, D, 0, N, s, 0)
  {
    Pow2Sum(db - 1, s + 1);
    MulMonotone(Pow2(s + 1), Pow2(db - 1), D);
    Swap(Pow2(s + 1), Pow2(db - 1));
    Swap(Pow2(s + 1), D);
  }

  lemma Swap(a: int, b: int)
    ensures a * b == b * a
  {
  }

  lemma Aligned(D: int, nb: nat, db: nat, s: nat, width: nat)
    requires BitLength(D, db) && 1 <= db && db + s == nb <= 32 * width
    ensures 0 <= D * Pow2(s) < Modulus(width)
  {
    Pow2Sum(db, s);
    MulMonotone(Pow2(s), D, Pow2(db) - 1);
    BelowProduct(Pow2(s), D, Pow2(db));
    Pow2Grows(nb, 32 * width);
    Pow2Modulus(width);
    Sign(D, Pow2(s));
  }

  lemma BelowProduct(p: int, d: int, e: int)
    requires p > 0 && d < e
    ensures d * p < e * p
  {
    MulMonotone(p, d + 1, e);
    assert p * (d + 1) == d * p + p;
  }

  lemma Small(x: int, m: nat)
    requires 0 <= x < m
    ensures x % m == x
  {
  }

  lemma HalveAligned(D: int, shift: nat)
    requires shift >= 1
    ensures (D * Pow2(shift)) / Pow2(1) == D * Pow2(shift - 1)
  {
    assert D * Pow2(shift) == 2 * (D * Pow2(shift - 1));
  }

  /** One round of the loop of /=. */
  method DivideRound(pn: array<Limb>, num: array<Limb>, div: array<Limb>, shift: nat, ghost N: int, ghost D: int, ghost part: nat)
    returns (ghost part': nat)
    requires pn.Length == num.Length == div.Length && pn != num && pn != div && num != div && shift < 32 * pn.Length
    requires Dividing(N, D, Value(pn[..]), Value(num[..]), shift, part) && Value(div[..]) == D * Pow2(shift)
    modifies pn, num, div
    ensures Dividing(N, D, Value(pn[..]), Value(num[..]), shift - 1, part')
    ensures shift >= 1 ==> Value(div[..]) == D * Pow2(shift - 1)
  {
    ghost var q, n, d := Value(pn[..]), Value(num[..]), Value(div[..]);
    ValueBound(num[..]);
    ValueBound(div[..]);
    var order := CompareTo(num, div);
    if order >= 0 {
      Subtract(num, div);
      Small(n - d, Modulus(num.Length));
      SetBit(pn, shift, part);
      DivideTake(N, D, q, n, shift, part, d);
      part' := 2 * part + 1;
    } else {
      DivideSkip(N, D, q, n, shift, part, d);
      part' := 2 * part;
    }
    ShiftRight(div, 1);
    if shift >= 1 {
      HalveAligned(D, shift);
    }
  }

  lemma Shorter(N: int, D: int, nb: nat, db: nat)
    requires BitLength(N, nb) && BitLength(D, db) && db > nb
    ensures D > 0 && N / D == 0
  {
    Pow2Grows(nb, db - 1);
    BelowOne(N, D);
  }

  /** /=: floor division, or an error that leaves zero behind when the divisor is zero. */
  method Divide(pn: array<Limb>, b: array<Limb>) returns (ok: bool)
    requires pn.Length == b.Length
    modifies pn
    ensures ok <==> old(Value(b[..])) != 0
    ensures ok ==> Value(pn[..]) == old(Value(pn[..])) / old(Value(b[..]))
    ensures !ok ==> Value(pn[..]) == 0
  {
    var div := new Limb[b.Length](i requires 0 <= i < b.Length reads b => b[i]);
    assert div[..] == b[..];
    var num := TakeOut(pn);
    ZerosAre(pn[..]);
    ghost var N, D := Value(num[..]), Value(div[..]);
    var numBits := Bits(num);
    var divBits := Bits(div);
    if divBits == 0 {
      return false;
    }
    if divBits > numBits {
      Shorter(N, D, numBits, divBits);
      return true;
    }
    var shift := numBits - divBits;
    ShiftLeft(div, shift);
    DivideStart(N, D, numBits, divBits, shift);
    Aligned(D, numBits, divBits, shift, pn.Length);
    Small(D * Pow2(shift), Modulus(pn.Length));
    ghost var part: nat := 0;
    while shift >= 0
      invariant -1 <= shift < 32 * pn.Length
      invariant Dividing(N, D, Value(pn[..]), Value(num[..]), shift, part)
      invariant shift >= 0 ==> Value(div[..]) == D * Pow2(shift)
    {
      part := DivideRound(pn, num, div, shift, N, D, part);
      shift := shift - 1;
    }
    DivideEnd(N, D, Value(pn[..]), Value(num[..]), part);
    return true;
  }
}

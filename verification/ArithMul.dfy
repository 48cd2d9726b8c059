/** Multiplication of base_uint (src/arith_uint256.cpp). */
module ArithMul {
  import opened Limbs
  import opened ArithUint

  lemma ProductBound(x: Limb, y: Limb)
    ensures 0 <= x * y <= (BASE - 1) * (BASE - 1)
  {
    MulMono(x, y, BASE - 1, BASE - 1);
  }

  lemma CarryBound(n: int)
    requires 0 <= n < MAX64
    ensures 0 <= n / BASE < BASE
  {
  }

  /** *= by a 32-bit number. */
  method MulSmall(pn: array<Limb>, x: Limb)
    modifies pn
    ensures Value(pn[..]) == (x * old(Value(pn[..]))) % Modulus(pn.Length)
  {
    ghost var a0 := pn[..];
    ghost var t := Scaled(x, a0);
    ghost var target := Carried(t, 0);
    assert t[0..] == t && target[0..] == target;
    var carry := 0;
    for i := 0 to pn.Length
      invariant 0 <= carry < BASE && pn[i..] == a0[i..] && Carrying(pn[..], i, t, carry, target)
    {
      assert pn[i] == a0[i];
      ProductBound(x, pn[i]);
      var n := carry + x * pn[i];
      assert n < MAX64;
      CarryBound(n);
      ghost var p: seq<int> := pn[..];
      CarryStep(p, i, t, carry, target, n);
      pn[i] := n % BASE;
      assert pn[..] == p[i := n % BASE];
      carry := n / BASE;
    }
    CarryEnd(pn[..], t, carry, target);
    CarriedMod(t, 0);
    ScaledValue(x, a0);
  }

  ghost function RowTerms(acc: seq<Limb>, x: Limb, b: seq<Limb>): seq<int>
    requires |acc| <= |b|
  {
    Plus(acc, Scaled(x, b[..|acc|]))
  }

  /** The inner loop: add x times b to the limbs from j on, cut off at the width. */
  method MulRow(a: array<Limb>, j: nat, x: Limb, b: array<Limb>)
    requires j <= a.Length == b.Length && a != b
    modifies a
    ensures a[..j] == old(a[..j])
    ensures a[j..] == Carried(RowTerms(old(a[j..]), x, b[..]), 0)
  {
    ghost var a0 := a[..];
    ghost var t := RowTerms(a[j..], x, b[..]);
    ghost var target := Carried(t, 0);
    assert t[0..] == t && target[0..] == target;
    var carry := 0;
    for i := 0 to a.Length - j
      invariant 0 <= carry < BASE && a[..j] == a0[..j] && a[j + i..] == a0[j + i..]
      invariant Carrying(a[j..], i, t, carry, target)
    {
      assert a[i + j] == a0[i + j] && t[i] == a0[i + j] + x * b[i];
      ProductBound(x, b[i]);
      var n := carry + a[i + j] + x * b[i];
      assert n < MAX64;
      CarryBound(n);
      ghost var p: seq<int> := a[j..];
      CarryStep(p, i, t, carry, target, n);
      a[i + j] := n % BASE;
      assert a[j..] == p[i := n % BASE];
      carry := n / BASE;
    }
    CarryEnd(a[j..], t, carry, target);
  }

  /** All rows: each settles one limb. */
  ghost function Rows(p: seq<Limb>, acc: seq<Limb>, b: seq<Limb>): (r: seq<Limb>)
    requires |p| == |acc| <= |b|
    ensures |r| == |p|
  {
    if p == [] then []
    else
      var row := Carried(RowTerms(acc, p[0], b), 0);
      [row[0]] + Rows(p[1..], row[1..], b)
  }

  lemma RowValue(acc: seq<Limb>, x: Limb, b: seq<Limb>) returns (k: int)
    requires |acc| <= |b|
    ensures Value(Carried(RowTerms(acc, x, b), 0)) + Modulus(|acc|) * k == Value(acc) + x * Value(b)
  {
    var n := |acc|;
    var t := RowTerms(acc, x, b);
    CarriedValue(t, 0);
    PlusValue(acc, Scaled(x, b[..n]));
    ScaledValue(x, b[..n]);
    ValueConcat(b[..n], b[n..]);
    assert b == b[..n] + b[n..];
    k := CarryOut(t, 0) + x * Value(b[n..]);
    RowAlgebra(Value(Carried(t, 0)), Modulus(n), CarryOut(t, 0), Value(acc), x, Value(b[..n]), Value(b[n..]), Value(b), k);
  }

  lemma RowAlgebra(v: int, m: int, co: int, acc: int, x: int, bl: int, bh: int, b: int, k: int)
    requires v + m * co == acc + x * bl && b == bl + m * bh && k == co + x * bh
    ensures v + m * k == acc + x * b
  {
    assert x * b == x * bl + m * (x * bh);
    assert m * k == m * co + m * (x * bh);
  }

  lemma {:induction false} RowsValue(p: seq<Limb>, acc: seq<Limb>, b: seq<Limb>) returns (k: int)
    requires |p| == |acc| <= |b|
    ensures Value(Rows(p, acc, b)) + Modulus(|p|) * k == Value(acc) + Value(p) * Value(b)
  {
    if p == [] {
      k := 0;
    } else {
      var row := Carried(RowTerms(acc, p[0], b), 0);
      var rest := Rows(p[1..], row[1..], b);
      var k1 := RowValue(acc, p[0], b);
      var k2 := RowsValue(p[1..], row[1..], b);
      k := k1 + k2;
      assert Rows(p, acc, b)[1..] == rest;
      RowsAlgebra(row[0], Value(row[1..]), Value(rest), Modulus(|p| - 1), k1, k2, Value(acc), p[0], Value(p[1..]), Value(b));
    }
  }

  lemma RowsAlgebra(r0: int, r: int, rest: int, m: int, k1: int, k2: int, acc: int, x: int, q: int, b: int)
    requires (r0 + BASE * r) + (BASE * m) * k1 == acc + x * b
    requires rest + m * k2 == r + q * b
    ensures (r0 + BASE * rest) + (BASE * m) * (k1 + k2) == acc + (x + BASE * q) * b
  {
    assert (BASE * m) * (k1 + k2) == (BASE * m) * k1 + BASE * (m * k2);
    assert (x + BASE * q) * b == x * b + BASE * (q * b);
  }

  lemma {:induction false} ZeroValue(s: seq<int>)
    requires forall i :: 0 <= i < |s| ==> s[i] == 0
    ensures Value(s) == 0
  {
    if s != [] {
      ZeroValue(s[1..]);
    }
  }

  /** The first j rows are done. */
  ghost predicate Multiplying(a: seq<Limb>, j: nat, p: seq<Limb>, b: seq<Limb>, target: seq<Limb>) {
    j <= |a| == |p| == |b| == |target| && a[..j] == target[..j] && Rows(p[j..], a[j..], b) == target[j..]
  }

  lemma MultiplyStep(a: seq<Limb>, a': seq<Limb>, j: nat, p: seq<Limb>, b: seq<Limb>, target: seq<Limb>)
    requires Multiplying(a, j, p, b, target) && j < |a| == |a'| && a'[..j] == a[..j]
    requires a'[j..] == Carried(RowTerms(a[j..], p[j], b), 0)
    ensures Multiplying(a', j + 1, p, b, target)
  {
    assert p[j..][0] == p[j] && p[j..][1..] == p[j + 1..] && a'[j..][1..] == a'[j + 1..];
    assert target[j..][0] == target[j] && target[j..][1..] == target[j + 1..];
    assert a'[..j + 1] == a'[..j] + [a'[j]] && target[..j + 1] == target[..j] + [target[j]];
  }

  lemma ProductMod(p: seq<Limb>, zeros: seq<Limb>, b: seq<Limb>)
    requires |p| == |zeros| == |b| && forall i :: 0 <= i < |zeros| ==> zeros[i] == 0
    ensures Value(Rows(p, zeros, b)) == (Value(p) * Value(b)) % Modulus(|p|)
  {
    var k := RowsValue(p, zeros, b);
    ZeroValue(zeros);
    ValueBound(Rows(p, zeros, b));
    ModUnique(Value(p) * Value(b), Modulus(|p|), k, Value(Rows(p, zeros, b)));
  }

  method Copy(pn: array<Limb>, a: array<Limb>)
    requires pn.Length == a.Length
    modifies pn
    ensures pn[..] == old(a[..])
  {
    for i := 0 to pn.Length
      invariant forall l :: 0 <= l < i ==> pn[l] == old(a[l])
      invariant forall l :: i <= l < pn.Length ==> a[l] == old(a[l])
    {
      pn[i] := a[i];
    }
  }

  /** *= by a number of the same width: schoolbook multiplication cut off at the width. */
  method Multiply(pn: array<Limb>, b: array<Limb>)
    requires pn.Length == b.Length
    modifies pn
    ensures Value(pn[..]) == (old(Value(pn[..])) * old(Value(b[..]))) % Modulus(pn.Length)
  {
    var a := new Limb[pn.Length](_ => 0);
    ghost var p0, b0 := pn[..], b[..];
    ghost var target := Rows(p0, a[..], b0);
    ProductMod(p0, a[..], b0);
    assert p0[0..] == p0 && a[..][0..] == a[..] && target[0..] == target;
    for j := 0 to pn.Length
      invariant pn[..] == p0 && b[..] == b0 && Multiplying(a[..], j, p0, b0, target)
    {
      ghost var before := a[..];
      MulRow(a, j, pn[j], b);
      assert a[..][..j] == a[..j] && before[..j] == a[..j] && a[..][j..] == a[j..];
      MultiplyStep(before, a[..], j, p0, b0, target);
    }
    assert a[..] == target by { assert a[..][..pn.Length] == a[..] && target[..pn.Length] == target; }
    Copy(pn, a);
  }
}

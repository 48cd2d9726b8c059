/** Numbers as 32-bit limbs, least significant first (src/arith_uint256.h): the value of
    limbs and what carrying does to it. */
module Limbs {

  const BASE: int := 0x1_0000_0000

  type Limb = x: int | 0 <= x < 0x1_0000_0000

  function Value(s: seq<int>): int { if s == [] then 0 else s[0] + BASE * Value(s[1..]) }

  /** 2^(32 n). */
  function Modulus(n: nat): (m: nat)
    ensures m > 0
  {
    if n == 0 then 1 else BASE * Modulus(n - 1)
  }

  lemma {:induction false} ValueBound(s: seq<Limb>)
    ensures 0 <= Value(s) < Modulus(|s|)
  {
    if s != [] {
      ValueBound(s[1..]);
    }
  }

  // ---------- Remainders ----------

  lemma MulGrows(d: int, k: int)
    requires d > 0 && k >= 1
    ensures d * k >= d
  {
  }

  lemma MulMono(a: int, b: int, c: int, d: int)
    requires 0 <= a <= c && 0 <= b <= d
    ensures 0 <= a * b <= c * d
  {
    assert a * b <= a * d;
    assert a * d <= c * d;
  }

  lemma ModUnique(x: int, d: int, k: int, r: int)
    requires 0 <= r < d && x == d * k + r
    ensures x % d == r && x / d == k
  {
    var q, s := x / d, x % d;
    assert x == d * q + s;
    assert d * (k - q) == s - r;
    if k > q {
      MulGrows(d, k - q);
    } else if k < q {
      MulGrows(d, q - k);
    }
  }

  // ---------- Carrying ----------

  /** Term i of the sum belongs to limb i; the carry goes on to the next. */
  function Carried(t: seq<int>, c: int): (r: seq<Limb>)
    ensures |r| == |t|
  {
    if t == [] then [] else [(c + t[0]) % BASE] + Carried(t[1..], (c + t[0]) / BASE)
  }

  function CarryOut(t: seq<int>, c: int): int {
    if t == [] then c else CarryOut(t[1..], (c + t[0]) / BASE)
  }

  lemma {:induction false} CarriedValue(t: seq<int>, c: int)
    ensures Value(Carried(t, c)) + Modulus(|t|) * CarryOut(t, c) == Value(t) + c
  {
    if t != [] {
      var n := c + t[0];
      CarriedValue(t[1..], n / BASE);
      assert Carried(t, c)[1..] == Carried(t[1..], n / BASE);
      assert BASE * (Modulus(|t| - 1) * CarryOut(t, c)) == Modulus(|t|) * CarryOut(t, c);
    }
  }

  /** Carrying computes the sum of the terms modulo 2^BITS. */
  lemma CarriedMod(t: seq<int>, c: int)
    ensures Value(Carried(t, c)) == (Value(t) + c) % Modulus(|t|)
  {
    CarriedValue(t, c);
    ValueBound(Carried(t, c));
    ModUnique(Value(t) + c, Modulus(|t|), CarryOut(t, c), Value(Carried(t, c)));
  }

  /** A loop that has carried the first i terms into p. */
  ghost predicate Carrying(p: seq<int>, i: nat, t: seq<int>, c: int, target: seq<Limb>) {
    && i <= |t| == |p| == |target|
    && p[..i] == target[..i] && Carried(t[i..], c) == target[i..]
  }

  lemma CarryStep(p: seq<int>, i: nat, t: seq<int>, c: int, target: seq<Limb>, n: int)
    requires Carrying(p, i, t, c, target) && i < |t| && n == c + t[i]
    ensures Carrying(p[i := n % BASE], i + 1, t, n / BASE, target)
  {
    var r := Carried(t[i..], c);
    assert t[i..][1..] == t[i + 1..] && r[0] == n % BASE && r[1..] == Carried(t[i + 1..], n / BASE);
    assert target[i] == r[0] && target[i + 1..] == r[1..];
    var q := p[i := n % BASE];
    assert q[..i + 1] == p[..i] + [n % BASE] && target[..i + 1] == target[..i] + [target[i]];
  }

  lemma CarryEnd(p: seq<int>, t: seq<int>, c: int, target: seq<Limb>)
    requires Carrying(p, |t|, t, c, target)
    ensures p == target
  {
    assert p[..|t|] == p && target[..|t|] == target;
  }

  // ---------- Sums and multiples of limbs ----------

  function Plus(a: seq<int>, b: seq<int>): seq<int>
    requires |a| == |b|
  {
    seq(|a|, i requires 0 <= i < |a| => a[i] + b[i])
  }

  lemma {:induction false} PlusValue(a: seq<int>, b: seq<int>)
    requires |a| == |b|
    ensures Value(Plus(a, b)) == Value(a) + Value(b)
  {
    if a != [] {
      PlusValue(a[1..], b[1..]);
      assert Plus(a, b)[1..] == Plus(a[1..], b[1..]);
    }
  }

  function Scaled(x: int, a: seq<int>): seq<int> { seq(|a|, i requires 0 <= i < |a| => x * a[i]) }

  lemma {:induction false} ScaledValue(x: int, a: seq<int>)
    ensures Value(Scaled(x, a)) == x * Value(a)
  {
    if a != [] {
      ScaledValue(x, a[1..]);
      assert Scaled(x, a)[1..] == Scaled(x, a[1..]);
      assert x * (a[0] + BASE * Value(a[1..])) == x * a[0] + BASE * (x * Value(a[1..]));
    }
  }

  // ---------- Splitting ----------

  lemma {:induction false} ValueConcat(a: seq<int>, b: seq<int>)
    ensures Value(a + b) == Value(a) + Modulus(|a|) * Value(b)
  {
    if a == [] {
      assert a + b == b;
    } else {
      ValueConcat(a[1..], b);
      assert (a + b)[1..] == a[1..] + b;
      assert BASE * (Modulus(|a| - 1) * Value(b)) == Modulus(|a|) * Value(b);
    }
  }

  lemma {:induction false} ModulusSum(m: nat, n: nat)
    ensures Modulus(m + n) == Modulus(m) * Modulus(n)
  {
    if m > 0 {
      ModulusSum(m - 1, n);
      assert BASE * (Modulus(m - 1) * Modulus(n)) == Modulus(m) * Modulus(n);
    }
  }
}

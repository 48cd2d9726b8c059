/** The limb loops of base_uint (src/arith_uint256.h and src/arith_uint256.cpp): each equals
    integer arithmetic modulo 2^BITS, for every width. */
module ArithUint {
  import opened Limbs

  const MAX64: int := 0x1_0000_0000_0000_0000

  // ---------- Addition and subtraction ----------

  method Add(pn: array<Limb>, b: array<Limb>)
    requires pn.Length == b.Length
    modifies pn
    ensures Value(pn[..]) == (old(Value(pn[..])) + old(Value(b[..]))) % Modulus(pn.Length)
  {
    ghost var a0, b0 := pn[..], b[..];
    ghost var t := Plus(a0, b0);
    ghost var target := Carried(t, 0);
    var carry := 0;
    assert t[0..] == t && target[0..] == target;
    for i := 0 to pn.Length
      invariant 0 <= carry <= 1 && pn[i..] == a0[i..] && b[i..] == b0[i..]
      invariant Carrying(pn[..], i, t, carry, target)
    {
      assert pn[i] == a0[i] && b[i] == b0[i];
      var n := carry + pn[i] + b[i];
      assert n < MAX64;
      ghost var p: seq<int> := pn[..];
      CarryStep(p, i, t, carry, target, n);
      pn[i] := n % BASE;
      assert pn[..] == p[i := n % BASE];
      carry := n / BASE;
    }
    CarryEnd(pn[..], t, carry, target);
    CarriedMod(t, 0);
    PlusValue(a0, b0);
  }

  lemma {:induction false} NothingCarried(a: seq<Limb>)
    ensures Carried(a, 0) == a
  {
    if a != [] {
      NothingCarried(a[1..]);
    }
  }

  lemma CarryDone(p: seq<Limb>, i: nat, t: seq<Limb>, target: seq<Limb>)
    requires Carrying(p, i, t, 0, target) && p[i..] == t[i..]
    ensures p == target
  {
    NothingCarried(t[i..]);
    assert p == p[..i] + p[i..] && target == target[..i] + target[i..];
  }

  /** A loop that has carried c through the first i limbs of a and not touched the rest. */
  ghost predicate Bumping(p: seq<Limb>, i: nat, a: seq<Limb>, c: int, target: seq<Limb>) {
    i <= |p| == |a| && Carrying(p, i, a, c, target) && p[i..] == a[i..]
  }

  lemma BumpStep(p: seq<Limb>, q: seq<Limb>, i: nat, a: seq<Limb>, c: int, target: seq<Limb>)
    requires i < |p| == |q| && Bumping(p, i, a, c, target) && q == p[i := q[i]] && q[i] == (c + p[i]) % BASE
    ensures Bumping(q, i + 1, a, (c + p[i]) / BASE, target)
  {
    assert p[i] == a[i];
    CarryStep(p, i, a, c, target, c + p[i]);
    assert q[i + 1..] == p[i..][1..] && a[i + 1..] == a[i..][1..];
  }

  lemma CarryUp(x: Limb)
    ensures (x + 1) % BASE == (if x == BASE - 1 then 0 else x + 1) && (1 + x) / BASE == if x == BASE - 1 then 1 else 0
  {
  }

  lemma CarryDown(x: Limb)
    ensures (x - 1) % BASE == (if x == 0 then BASE - 1 else x - 1) && (-1 + x) / BASE == if x == 0 then -1 else 0
  {
  }

  method Increment(pn: array<Limb>)
    modifies pn
    ensures Value(pn[..]) == (old(Value(pn[..])) + 1) % Modulus(pn.Length)
  {
    ghost var a0, target := pn[..], Carried(pn[..], 1);
    assert a0[0..] == a0 && target[0..] == target;
    CarriedMod(a0, 1);
    var i := 0;
    while i < pn.Length
      invariant 0 <= i <= pn.Length && Bumping(pn[..], i, a0, 1, target)
    {
      ghost var p := pn[..];
      var x: int := pn[i];
      CarryUp(pn[i]);
      pn[i] := (x + 1) % BASE;
      assert pn[..] == p[i := pn[i]];
      BumpStep(p, pn[..], i, a0, 1, target);
      if pn[i] != 0 {
        CarryDone(pn[..], i + 1, a0, target);
        return;
      }
      i := i + 1;
    }
    CarryEnd(pn[..], a0, 1, target);
  }

  method Decrement(pn: array<Limb>)
    modifies pn
    ensures Value(pn[..]) == (old(Value(pn[..])) - 1) % Modulus(pn.Length)
  {
    ghost var a0, target := pn[..], Carried(pn[..], -1);
    assert a0[0..] == a0 && target[0..] == target;
    CarriedMod(a0, -1);
    var i := 0;
    while i < pn.Length
      invariant 0 <= i <= pn.Length && Bumping(pn[..], i, a0, -1, target)
    {
      ghost var p := pn[..];
      var x: int := pn[i];
      CarryDown(pn[i]);
      pn[i] := (x - 1) % BASE;
      assert pn[..] == p[i := pn[i]];
      BumpStep(p, pn[..], i, a0, -1, target);
      if pn[i] != BASE - 1 {
        CarryDone(pn[..], i + 1, a0, target);
        return;
      }
      i := i + 1;
    }
    CarryEnd(pn[..], a0, -1, target);
  }

  function Flipped(a: seq<Limb>): seq<Limb> { seq(|a|, i requires 0 <= i < |a| => BASE - 1 - a[i]) }

  lemma {:induction false} FlippedValue(a: seq<Limb>)
    ensures Value(Flipped(a)) == Modulus(|a|) - 1 - Value(a)
  {
    if a != [] {
      FlippedValue(a[1..]);
      assert Flipped(a)[1..] == Flipped(a[1..]);
    }
  }

  method Complement(pn: array<Limb>) returns (r: array<Limb>)
    ensures fresh(r) && r.Length == pn.Length
    ensures Value(r[..]) == Modulus(pn.Length) - 1 - Value(pn[..])
  {
    r := new Limb[pn.Length](_ => 0);
    for i := 0 to pn.Length
      invariant forall j :: 0 <= j < i ==> r[j] == BASE - 1 - pn[j]
    {
      r[i] := BASE - 1 - pn[i];
    }
    assert r[..] == Flipped(pn[..]);
    FlippedValue(pn[..]);
  }

  method Negate(pn: array<Limb>) returns (r: array<Limb>)
    ensures fresh(r) && r.Length == pn.Length
    ensures Value(r[..]) == (-Value(pn[..])) % Modulus(pn.Length)
  {
    r := Complement(pn);
    Increment(r);
    Shifted(-Value(pn[..]), Modulus(pn.Length), 1);
  }

  lemma Shifted(x: int, m: nat, k: int)
    requires m > 0
    ensures (x + m * k) % m == x % m
  {
    ModUnique(x + m * k, m, x / m + k, x % m);
  }

  method Subtract(pn: array<Limb>, b: array<Limb>)
    requires pn.Length == b.Length
    modifies pn
    ensures Value(pn[..]) == (old(Value(pn[..])) - old(Value(b[..]))) % Modulus(pn.Length)
  {
    ghost var v, w := Value(pn[..]), Value(b[..]);
    var negative := Negate(b);
    Add(pn, negative);
    SubMod(v, w, Modulus(pn.Length));
  }

  lemma SubMod(v: int, w: int, m: nat)
    requires m > 0
    ensures (v + (-w) % m) % m == (v - w) % m
  {
    var q := (-w) / m;
    assert (-w) % m == -w - m * q;
    Shifted(v - w, m, -q);
  }
}

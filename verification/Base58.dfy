/** Base 58 strings (src/base58.cpp). */
module Base58 {
  import Limbs
  import opened Digits

  // ---------- The buffers suffice ----------

  lemma BytesInBase58()
    ensures Pow(256, 8) <= Pow(58, 11)
  {
  }

  lemma PowStep(b: nat, m: nat, n: nat, k: nat, x: nat, y: nat, z: nat)
    requires Pow(b, m) == x && Pow(b, n) == y && z == x * y && k == m + n
    ensures Pow(b, k) == z
  {
    PowSum(b, m, n);
  }

  /** 58^71 < 2^416, by squaring; the exponents are kept symbolic. */
  lemma CharsInBase256(c: nat, d: nat)
    requires 70 < c < 72 && 51 < d < 53
    ensures Pow(58, c) <= Pow(256, d)
  {
    var a: nat :| 4 < a < 6;
    FifthPower(a);
    PowStep(58, a, a, 2 * a, 656356768, 656356768, 0x5fa8624c7fba400);
    PowStep(58, 2 * a, 2 * a, 4 * a, 0x5fa8624c7fba400, 0x5fa8624c7fba400, 0x23be67b5f0f2889aaf505301100000);
    PowStep(58, 2 * a, a, 3 * a, 0x5fa8624c7fba400, 656356768, 0xe9e506734501d8f23a8000);
    PowStep(58, 4 * a, 3 * a, 7 * a, 0x23be67b5f0f2889aaf505301100000, 0xe9e506734501d8f23a8000, 0x20a8469deca6b5a6d367cbc0907d07e6a5584778de2800000000);
    PowStep(58, 7 * a, 7 * a, 14 * a, 0x20a8469deca6b5a6d367cbc0907d07e6a5584778de2800000000, 0x20a8469deca6b5a6d367cbc0907d07e6a5584778de2800000000, 0x42a80443deb070f6a6540e34ca0fd38892d9fc7d024451112c093c5a49ccf46cb49e6f8654c8fcb364966400000000000000000);
    assert Pow(58, c) == 58 * Pow(58, 14 * a);
    var e: nat :| 12 < e < 14;
    Power13(e);
    PowStep(256, e, e, 2 * e, 0x100000000000000000000000000, 0x100000000000000000000000000, 0x10000000000000000000000000000000000000000000000000000);
    PowStep(256, 2 * e, 2 * e, 4 * e, 0x10000000000000000000000000000000000000000000000000000, 0x10000000000000000000000000000000000000000000000000000, 0x100000000000000000000000000000000000000000000000000000000000000000000000000000000000000000000000000000000);
  }

  lemma FifthPower(a: nat)
    requires 4 < a < 6
    ensures Pow(58, a) == 656356768
  {
    assert Pow(58, 5) == 656356768;
  }

  lemma Power13(e: nat)
    requires 12 < e < 14
    ensures Pow(256, e) == 0x100000000000000000000000000
  {
    assert Pow(256, 13) == 0x100000000000000000000000000;
  }

  /** n bytes fit into n * 138 / 100 + 1 base 58 digits. */
  lemma EncodeSize(n: nat)
    ensures Pow(256, n) <= Pow(58, n * 138 / 100 + 1)
  {
    var s := n * 138 / 100 + 1;
    BytesInBase58();
    RootBound(256, 8, 58, 11, n, s, 8 * n, 11 * n, 8 * s);
  }

  /** n base 58 digits fit into n * 733 / 1000 + 1 bytes. */
  lemma DecodeSize(n: nat)
    ensures Pow(58, n) <= Pow(256, n * 733 / 1000 + 1)
  {
    var s := n * 733 / 1000 + 1;
    CharsInBase256(71, 52);
    RootBound(58, 71, 256, 52, n, s, 71 * n, 52 * n, 71 * s);
  }

  // ---------- Multiply and add in a digit buffer ----------

  /** f times the number with digits d, plus c, digit by digit. */
  function MulAddDigits(d: seq<nat>, f: nat, b: nat, c: nat): seq<nat>
    requires b >= 2
  {
    if d == [] then Canon(c, b) else [(c + f * d[0]) % b] + MulAddDigits(d[1..], f, b, (c + f * d[0]) / b)
  }

  lemma Parts(n: nat, b: nat) returns (q: nat, r: nat)
    requires b >= 2
    ensures n == b * q + r && r < b && (n > 0 ==> q < n && Canon(n, b) == [r] + Canon(q, b))
  {
    q, r := n / b, n % b;
    if n > 0 {
      Smaller(n, b);
    }
  }

  lemma CanonCons(u: nat, b: nat, q: nat, r: nat)
    requires b >= 2 && u > 0 && u == b * q + r && r < b
    ensures Canon(u, b) == [r] + Canon(q, b)
  {
    Limbs.ModUnique(u, b, q, r);
  }

  lemma MulAddCons(x: nat, rest: seq<nat>, f: nat, b: nat, c: nat, q: nat, r: nat)
    requires b >= 2 && c + f * x == b * q + r && r < b
    ensures MulAddDigits([x] + rest, f, b, c) == [r] + MulAddDigits(rest, f, b, q)
  {
    Limbs.ModUnique(c + f * x, b, q, r);
    assert ([x] + rest)[1..] == rest;
  }

  lemma Regroup(f: nat, b: nat, v: nat, q: nat, r: nat, c: nat, m: nat, x: nat)
    requires v == b * q + r && c + f * r == b * m + x
    ensures f * v + c == b * (f * q + m) + x
  {
    assert f * v == b * (f * q) + f * r;
  }

  lemma {:induction false} MulAddCanon(v: nat, f: nat, b: nat, c: nat, u: nat)
    requires b >= 2 && f >= 1 && u == f * v + c
    ensures MulAddDigits(Canon(v, b), f, b, c) == Canon(u, b)
    decreases v
  {
    if v > 0 {
      var q, r := Parts(v, b);
      var m, x := Parts(c + f * r, b);
      Regroup(f, b, v, q, r, c, m, x);
      MulAddCons(r, Canon(q, b), f, b, c, m, x);
      MulAddCanon(q, f, b, m, f * q + m);
      Limbs.MulGrows(f, v);
      CanonCons(u, b, f * q + m, x);
    }
  }

  /** The buffer, read from its end, holds the digits and then zeros. */
  ghost predicate HeldAt(s: seq<nat>, d: seq<nat>, k: int) {
    0 <= k < |s| ==> s[|s| - 1 - k] == if k < |d| then d[k] else 0
  }

  ghost predicate Holds(s: seq<nat>, d: seq<nat>) {
    |d| <= |s| && forall k {:trigger HeldAt(s, d, k)} :: HeldAt(s, d, k)
  }

  function Drop(d: seq<nat>, i: nat): seq<nat> { if i <= |d| then d[i..] else [] }

  /** Halfway through: i digits of the target t are written, the rest is still d. */
  ghost predicate MidAt(s: seq<nat>, d: seq<nat>, t: seq<nat>, i: nat, k: int) {
    0 <= k < |s| && i <= |t| ==> s[|s| - 1 - k] == if k < i then t[k] else if k < |d| then d[k] else 0
  }

  ghost predicate Written(s: seq<nat>, d: seq<nat>, t: seq<nat>, i: nat) {
    i <= |s| && i <= |t| && forall k {:trigger MidAt(s, d, t, i, k)} :: MidAt(s, d, t, i, k)
  }

  /** The remaining digits of d with carry c give the remaining digits of t. */
  ghost predicate TailIs(d: seq<nat>, t: seq<nat>, i: nat, f: nat, b: nat, c: nat) {
    b >= 2 && i <= |t| && MulAddDigits(Drop(d, i), f, b, c) == t[i..]
  }

  ghost predicate Tail(d: seq<nat>, t: seq<nat>, i: nat, f: nat, b: nat, c: nat) {
    forall z: nat {:trigger TailIs(d, t, i, f, b, z)} :: z == c ==> TailIs(d, t, i, f, b, z)
  }

  lemma TailStep(d: seq<nat>, t: seq<nat>, i: nat, f: nat, b: nat, c: nat, x: nat, q: nat, r: nat)
    requires b >= 2 && Tail(d, t, i, f, b, c) && (c != 0 || i < |d|) && x == (if i < |d| then d[i] else 0)
    requires c + f * x == b * q + r && r < b
    ensures i < |t| && t[i] == r && Tail(d, t, i + 1, f, b, q)
  {
    assert TailIs(d, t, i, f, b, c);
    var j := i + 1;
    if i < |d| {
      assert Drop(d, i) == [d[i]] + Drop(d, j);
      MulAddCons(d[i], Drop(d, j), f, b, c, q, r);
    } else {
      CanonCons(c, b, q, r);
      assert Drop(d, i) == [] && Drop(d, j) == [];
    }
    assert t[i..] == [r] + MulAddDigits(Drop(d, j), f, b, q);
    assert t[i..][0] == t[i] && t[i..][1..] == t[j..];
  }

  lemma WrittenStep(s: seq<nat>, d: seq<nat>, t: seq<nat>, i: nat, r: nat)
    requires Written(s, d, t, i) && i < |s| && i < |t| && t[i] == r
    ensures Written(s[|s| - 1 - i := r], d, t, i + 1)
  {
    var s', j := s[|s| - 1 - i := r], i + 1;
    forall k ensures MidAt(s', d, t, j, k) { assert MidAt(s, d, t, i, k); }
  }

  lemma MidStart(s: seq<nat>, d: seq<nat>, t: seq<nat>, f: nat, b: nat, c: nat)
    requires b >= 2 && Holds(s, d) && t == MulAddDigits(d, f, b, c)
    ensures Written(s, d, t, 0) && Tail(d, t, 0, f, b, c)
  {
    assert Drop(d, 0) == d && t[0..] == t;
    forall k ensures MidAt(s, d, t, 0, k) { assert HeldAt(s, d, k); }
  }

  lemma MidEnd(s: seq<nat>, d: seq<nat>, t: seq<nat>, i: nat, f: nat, b: nat, c: nat)
    requires b >= 2 && Written(s, d, t, i) && Tail(d, t, i, f, b, c) && |t| <= |s| && ((c == 0 && i >= |d|) || i == |s|)
    ensures c == 0 && i == |t| && Holds(s, t)
  {
    assert TailIs(d, t, i, f, b, c);
    assert t[i..] == [] by { assert i == |s| ==> |t[i..]| == 0; }
    forall k ensures HeldAt(s, t, k) { assert MidAt(s, d, t, i, k); }
  }

  method DivMod(n: nat, b: nat) returns (q: nat, r: nat)
    requires b >= 2
    ensures n == b * q + r && r < b
  {
    q, r := n / b, n % b;
  }

  /** The inner loop of both functions: the buffer becomes f times itself plus carry, and
      the carry never runs off its end. */
  method MulAdd(d: array<nat>, length: nat, carry0: nat, f: nat, b: nat, ghost v: nat, ghost u: nat) returns (newLength: nat)
    requires b >= 2 && f >= 1 && Holds(d[..], Canon(v, b)) && length == |Canon(v, b)|
    requires u == f * v + carry0 && u < Pow(b, d.Length)
    modifies d
    ensures Holds(d[..], Canon(u, b)) && newLength == |Canon(u, b)|
  {
    ghost var digits, t := Canon(v, b), Canon(u, b);
    MulAddCanon(v, f, b, carry0, u);
    CanonLength(u, b, d.Length);
    MidStart(d[..], digits, t, f, b, carry0);
    var carry: nat, i: nat := carry0, 0;
    while (carry != 0 || i < length) && i < d.Length
      invariant Written(d[..], digits, t, i) && Tail(digits, t, i, f, b, carry)
      decreases d.Length - i
    {
      ghost var before := d[..];
      assert MidAt(before, digits, t, i, i);
      var x := d[d.Length - 1 - i];
      var q, r := DivMod(carry + f * x, b);
      TailStep(digits, t, i, f, b, carry, x, q, r);
      WrittenStep(before, digits, t, i, r);
      d[d.Length - 1 - i] := r;
      assert d[..] == before[d.Length - 1 - i := r];
      carry := q;
      i := i + 1;
    }
    MidEnd(d[..], digits, t, i, f, b, carry);
    assert carry == 0;
    newLength := i;
  }
}

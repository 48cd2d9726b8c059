/** arith_uint256 in compact form, and the proof of work behind a target
    (src/arith_uint256.cpp and GetBitsProof in src/chain.cpp). */
module Arith256 {
  import opened Limbs
  import opened ArithUint
  import opened ArithShift
  import opened ArithShiftRight
  import opened ArithDiv
  import opened ArithCompact

  const WIDTH := 8

  lemma TwoLimbs(a: seq<Limb>)
    requires |a| >= 2 && forall m :: 2 <= m < |a| ==> a[m] == 0
    ensures Value(a) == a[0] + BASE * a[1]
  {
    assert Value(a) == a[0] + BASE * Value(a[1..]);
    assert Value(a[1..]) == a[1] + BASE * Value(a[1..][1..]);
    ZerosAre(a[1..][1..]);
  }

  /** = uint64. */
  method Assign(pn: array<Limb>, x: nat)
    requires pn.Length >= 2 && x < MAX64
    modifies pn
    ensures Value(pn[..]) == x
  {
    pn[0], pn[1] := x % BASE, x / BASE;
    for i := 2 to pn.Length
      invariant pn[0] == x % BASE && pn[1] == x / BASE && forall m :: 2 <= m < i ==> pn[m] == 0
    {
      pn[i] := 0;
    }
    TwoLimbs(pn[..]);
  }

  lemma LowWords(a: seq<Limb>)
    requires |a| >= 2 && Value(a) < MAX64
    ensures a[0] + BASE * a[1] == Value(a)
  {
    var rest := a[1..][1..];
    assert Value(a) == a[0] + BASE * (a[1] + BASE * Value(rest));
    ValueBound(rest);
  }

  method GetLow64(pn: array<Limb>) returns (x: nat)
    requires pn.Length >= 2
    ensures Value(pn[..]) < MAX64 ==> x == Value(pn[..])
  {
    x := pn[0] + pn[1] * BASE;
    if Value(pn[..]) < MAX64 {
      LowWords(pn[..]);
    }
  }

  // ---------- SetCompact and GetCompact ----------

  lemma KeptBound(c: Compact)
    requires IsCompact(c)
    ensures Kept(c) < 0x80_0000
  {
    if c.size <= 3 {
      DivBound(c.word, Bytes(3 - c.size));
    }
  }

  method SetCompact(pn: array<Limb>, n: nat) returns (negative: bool, overflow: bool)
    requires pn.Length == WIDTH && n < 0x1_0000_0000
    modifies pn
    ensures negative <==> Kept(Unpack(n)) != 0 && Unpack(n).negative
    ensures overflow <==> Target(Unpack(n)) >= Modulus(8)
    ensures Value(pn[..]) == Target(Unpack(n)) % Modulus(8)
  {
    var size, word := n / 0x100_0000, n % 0x80_0000;
    ghost var c := Unpack(n);
    KeptBound(c);
    OverflowExact(c);
    if size <= 3 {
      word := Quotient(word, Pow2(8 * (3 - size)));
      Assign(pn, word);
      SmallTarget(c);
      Small(word, Modulus(8));
    } else {
      Assign(pn, word);
      ShiftLeft(pn, 8 * (size - 3));
    }
    negative := word != 0 && n / 0x80_0000 % 2 == 1;
    overflow := word != 0 && (size > 34 || (word > 0xff && size > 33) || (word > 0xffff && size > 32));
  }

  /** The low 64 bits of the top three bytes. */
  method TopBytes(pn: array<Limb>, size: nat, ghost n: nat) returns (x: nat)
    requires pn.Length >= 2 && BitLength(Value(pn[..]), n) && size == ByteCount(n)
    ensures Value(pn[..]) >= 0 && x == Top(Value(pn[..]), size) < 0x100_0000
  {
    ValueBound(pn[..]);
    TopBound(Value(pn[..]), n);
    if size <= 3 {
      Pow2Grows(n, 24);
      FewBytes();
      var low := GetLow64(pn);
      x := low * Pow2(8 * (3 - size));
    } else {
      var bn := new Limb[pn.Length](i requires 0 <= i < pn.Length reads pn => pn[i]);
      assert bn[..] == pn[..];
      ShiftRight(bn, 8 * (size - 3));
      x := GetLow64(bn);
    }
  }

  method GetCompact(pn: array<Limb>, negative: bool) returns (compact: nat, ghost n: nat)
    requires pn.Length == WIDTH
    ensures Value(pn[..]) >= 0 && BitLength(Value(pn[..]), n) && n <= 256
    ensures compact == Pack(CompactOf(Value(pn[..]), n, negative)) < 0x1_0000_0000
  {
    var bits := Bits(pn);
    n := bits;
    ValueBound(pn[..]);
    CompactFits(Value(pn[..]), bits, negative);
    var size := (bits + 7) / 8;
    var word := TopBytes(pn, size, bits);
    ghost var c := Normal(size, word, negative);
    SignBit(word);
    if word / 0x80_0000 % 2 == 1 {
      word := word / 256;
      size := size + 1;
    }
    UnpackPack(c);
    compact := size * 0x100_0000 + word + if negative && word != 0 then 0x80_0000 else 0;
  }

  lemma SignBit(word: nat)
    requires word < 0x100_0000
    ensures word / 0x80_0000 % 2 == 1 <==> word >= 0x80_0000
  {
  }

  // ---------- GetBitsProof ----------

  /** No compact form stands for 2^256 - 1, so target + 1 never wraps to zero. */
  lemma NotAllOnes(c: Compact)
    requires IsCompact(c) && Target(c) < Modulus(8)
    ensures Target(c) + 1 < Modulus(8)
  {
    if c.size <= 3 {
      SmallTarget(c);
    } else {
      FewBytes();
      BytesSum(c.size - 4, 1);
      WholeBytes(c.word, Bytes(c.size - 4), Bytes(c.size - 3), Modulus(8));
    }
  }

  lemma WholeBytes(w: nat, a: nat, a': nat, b: nat)
    requires a' == a * 256 && b % 256 == 0 && w * a' < b
    ensures w * a' + 1 < b
  {
    assert w * a' == 256 * (w * a);
  }

  lemma ProofAlgebra(P: int, t: int)
    requires 1 <= t && t + 1 < P
    ensures (P - 1 - t) / (t + 1) + 1 == P / (t + 1) && 0 <= P / (t + 1) < P
  {
    var d := t + 1;
    var q, r := (P - d) / d, (P - d) % d;
    assert P == d * (q + 1) + r by { assert P - d == d * q + r; assert d * (q + 1) == d * q + d; }
    ModUnique(P, d, q + 1, r);
    assert q >= 0 by { if q < 0 { MulMonotone(d, q, -1); } }
    MulMonotone(q + 1, 2, d);
    Swap(q + 1, d);
  }

  method IsZero(pn: array<Limb>) returns (zero: bool)
    ensures zero <==> Value(pn[..]) == 0
  {
    var n := Bits(pn);
    zero := n == 0;
  }

  method AddOne(pn: array<Limb>)
    requires pn.Length == WIDTH
    modifies pn
    ensures Value(pn[..]) == (old(Value(pn[..])) + 1) % Modulus(WIDTH)
  {
    var one := new Limb[WIDTH](_ => 0);
    Assign(one, 1);
    Add(pn, one);
  }

  /** ~target / (target + 1) + 1. */
  method ProofOf(target: array<Limb>) returns (r: array<Limb>)
    requires target.Length == WIDTH && 1 <= Value(target[..]) && Value(target[..]) + 1 < Modulus(8)
    modifies target
    ensures r.Length == WIDTH && Value(r[..]) == Modulus(8) / (old(Value(target[..])) + 1)
  {
    ghost var t := Value(target[..]);
    ProofAlgebra(Modulus(8), t);
    r := Complement(target);
    AddOne(target);
    Small(t + 1, Modulus(8));
    var ok := Divide(r, target);
    AddOne(r);
    Small(Modulus(8) / (t + 1), Modulus(8));
  }

  /** Expected number of hashes for a target: floor(2^256 / (target + 1)), or 0 when the
      compact form is negative, too large or zero. */
  method GetBitsProof(bits: nat) returns (r: array<Limb>)
    requires bits < 0x1_0000_0000
    ensures r.Length == WIDTH
    ensures var c := Unpack(bits); var t := Target(c);
            Value(r[..]) == if t == 0 || t >= Modulus(8) || c.negative then 0 else Modulus(8) / (t + 1)
  {
    var target := new Limb[WIDTH](_ => 0);
    var negative, overflow := SetCompact(target, bits);
    var zero := IsZero(target);
    ghost var t := Target(Unpack(bits));
    TargetZero(Unpack(bits));
    if t < Modulus(8) {
      Small(t, Modulus(8));
      NotAllOnes(Unpack(bits));
    }
    if negative || overflow || zero {
      r := new Limb[WIDTH](_ => 0);
      ZerosAre(r[..]);
    } else {
      r := ProofOf(target);
    }
  }

  lemma TargetZero(c: Compact)
    ensures Target(c) == 0 <==> Kept(c) == 0
  {
    if c.size > 3 && c.word > 0 {
      MulGrows(Bytes(c.size - 3), c.word);
    }
  }
}

/** The checksum register as the 30-bit integer that the source keeps (src/bech32.cpp). */
module Bech32Register {
  import opened Bech32Field
  import opened Bech32Ext
  import opened Bech32Powers
  import opened Bech32Order
  import opened Bech32Poly
  import opened Folding

  // ---------- Exclusive or of integers ----------

  function Xor(a: nat, b: nat): nat {
    if a == 0 then b else if b == 0 then a
    else 2 * Xor(a / 2, b / 2) + if a % 2 != b % 2 then 1 else 0
  }

  type BinaryOp = (nat, nat) -> nat

  ghost predicate BitRule(xor: BinaryOp, a: nat, b: nat, x: bool, y: bool) {
    xor(2 * a + Bit(x), 2 * b + Bit(y)) == 2 * xor(a, b) + Bit(x != y)
  }

  /** Works bit by bit. */
  ghost predicate Bitwise(xor: BinaryOp) {
    && xor(0, 0) == 0
    && forall a: nat, b: nat, x, y {:trigger BitRule(xor, a, b, x, y)} :: BitRule(xor, a, b, x, y)
  }

  lemma XorBit(a: nat, b: nat, x: bool, y: bool)
    ensures Xor(2 * a + Bit(x), 2 * b + Bit(y)) == 2 * Xor(a, b) + Bit(x != y)
  {
    Halves(a, x);
    Halves(b, y);
    XorUnfold(2 * a + Bit(x), 2 * b + Bit(y), a, b, Bit(x), Bit(y));
  }

  lemma Halves(a: nat, x: bool)
    ensures (2 * a + Bit(x)) / 2 == a && (2 * a + Bit(x)) % 2 == Bit(x)
  {
  }

  lemma XorUnfold(p: nat, q: nat, a: nat, b: nat, x: nat, y: nat)
    requires p == 2 * a + x && q == 2 * b + y && x < 2 && y < 2
    ensures Xor(p, q) == 2 * Xor(a, b) + if x != y then 1 else 0
  {
    assert p / 2 == a && p % 2 == x && q / 2 == b && q % 2 == y;
    if p > 0 && q > 0 {
      assert Xor(p, q) == 2 * Xor(p / 2, q / 2) + if p % 2 != q % 2 then 1 else 0;
    }
  }

  lemma XorBitwise()
    ensures Bitwise(Xor)
  {
    forall a: nat, b: nat, x, y ensures BitRule(Xor, a, b, x, y) { XorBit(a, b, x, y); }
  }

  lemma NextBit(xor: BinaryOp, a: nat, b: nat, p: nat, q: nat, r: nat, x: bool, y: bool)
    requires Bitwise(xor) && p == 2 * a + Bit(x) && q == 2 * b + Bit(y) && r == xor(a, b)
    ensures xor(p, q) == 2 * r + Bit(x != y)
  {
    assert BitRule(xor, a, b, x, y);
  }

  lemma FiveBits(xor: BinaryOp, a: nat, b: nat, x4: bool, x3: bool, x2: bool, x1: bool, x0: bool, y4: bool, y3: bool, y2: bool, y1: bool, y0: bool)
    returns (p: nat, q: nat, r: nat)
    requires Bitwise(xor)
    ensures p == 2 * (2 * (2 * (2 * (2 * a + Bit(x4)) + Bit(x3)) + Bit(x2)) + Bit(x1)) + Bit(x0)
    ensures q == 2 * (2 * (2 * (2 * (2 * b + Bit(y4)) + Bit(y3)) + Bit(y2)) + Bit(y1)) + Bit(y0)
    ensures r == 2 * (2 * (2 * (2 * (2 * xor(a, b) + Bit(x4 != y4)) + Bit(x3 != y3)) + Bit(x2 != y2)) + Bit(x1 != y1)) + Bit(x0 != y0)
    ensures xor(p, q) == r
  {
    var p4, q4, r4 := 2 * a + Bit(x4), 2 * b + Bit(y4), 2 * xor(a, b) + Bit(x4 != y4);
    var p3, q3, r3 := 2 * p4 + Bit(x3), 2 * q4 + Bit(y3), 2 * r4 + Bit(x3 != y3);
    var p2, q2, r2 := 2 * p3 + Bit(x2), 2 * q3 + Bit(y2), 2 * r3 + Bit(x2 != y2);
    var p1, q1, r1 := 2 * p2 + Bit(x1), 2 * q2 + Bit(y1), 2 * r2 + Bit(x1 != y1);
    p, q, r := 2 * p1 + Bit(x0), 2 * q1 + Bit(y0), 2 * r1 + Bit(x0 != y0);
    NextBit(xor, a, b, p4, q4, xor(a, b), x4, y4);
    NextBit(xor, p4, q4, p3, q3, r4, x3, y3);
    NextBit(xor, p3, q3, p2, q2, r3, x2, y2);
    NextBit(xor, p2, q2, p1, q1, r2, x1, y1);
    NextBit(xor, p1, q1, p, q, r1, x0, y0);
  }

  /** A symbol at the low end does not mix with what stands above it. */
  lemma XorSymbol(xor: BinaryOp, a: nat, b: nat, x: F32, y: F32)
    requires Bitwise(xor)
    ensures xor(32 * a + Code(x), 32 * b + Code(y)) == 32 * xor(a, b) + Code(Add(x, y))
  {
    var p, q, r := FiveBits(xor, a, b, x.b4, x.b3, x.b2, x.b1, x.b0, y.b4, y.b3, y.b2, y.b1, y.b0);
  }

  lemma XorSymbols(xor: BinaryOp, a: nat, b: nat, p: nat, q: nat, r: nat, x: F32, y: F32)
    requires Bitwise(xor) && p == 32 * a + Code(x) && q == 32 * b + Code(y) && r == xor(a, b)
    ensures xor(p, q) == 32 * r + Code(Add(x, y))
  {
    XorSymbol(xor, a, b, x, y);
  }

  /** Adding registers symbol by symbol is exclusive or of the integers. */
  lemma PackedBitwise(xor: BinaryOp, r: Residue, s: Residue)
    requires Bitwise(xor)
    ensures xor(Packed(r), Packed(s)) == Packed(AddR(r, s))
  {
    var t := AddR(r, s);
    var a1, b1, c1 := Code(r.r0) * 32 + Code(r.r1), Code(s.r0) * 32 + Code(s.r1), Code(t.r0) * 32 + Code(t.r1);
    var a2, b2, c2 := a1 * 32 + Code(r.r2), b1 * 32 + Code(s.r2), c1 * 32 + Code(t.r2);
    var a3, b3, c3 := a2 * 32 + Code(r.r3), b2 * 32 + Code(s.r3), c2 * 32 + Code(t.r3);
    var a4, b4, c4 := a3 * 32 + Code(r.r4), b3 * 32 + Code(s.r4), c3 * 32 + Code(t.r4);
    XorSymbols(xor, 0, 0, Code(r.r0), Code(s.r0), 0, r.r0, s.r0);
    XorSymbols(xor, Code(r.r0), Code(s.r0), a1, b1, Code(t.r0), r.r1, s.r1);
    XorSymbols(xor, a1, b1, a2, b2, c1, r.r2, s.r2);
    XorSymbols(xor, a2, b2, a3, b3, c2, r.r3, s.r3);
    XorSymbols(xor, a3, b3, a4, b4, c3, r.r4, s.r4);
    XorSymbols(xor, a4, b4, Packed(r), Packed(s), c4, r.r5, s.r5);
  }

  lemma XorPacked(r: Residue, s: Residue)
    ensures Xor(Packed(r), Packed(s)) == Packed(AddR(r, s))
  {
    XorBitwise();
    PackedBitwise(Xor, r, s);
  }

  // ---------- One round ----------

  function XorIf(s: bool, k: nat, c: nat): nat { if s then Xor(c, k) else c }

  /** The conditional constants, by the bits of c0. */
  function Selection(c0: nat, c: nat, k1: nat, k2: nat, k4: nat, k8: nat, k16: nat): nat {
    XorIf(c0 / 16 % 2 == 1, k16,
      XorIf(c0 / 8 % 2 == 1, k8,
        XorIf(c0 / 4 % 2 == 1, k4,
          XorIf(c0 / 2 % 2 == 1, k2,
            XorIf(c0 % 2 == 1, k1, c)))))
  }

  function Constants(c0: nat, c: nat): nat { Selection(c0, c, 0x3b6a57b2, 0x26508e6d, 0x1ea119fa, 0x3d4233dd, 0x2a1462b3) }

  /** One round of the loop on the integer: the top symbol leaves, the next one enters. */
  function RegisterStep(c: nat, v: nat): nat { Constants(c / 0x200_0000, Xor(c % 0x200_0000 * 32, v)) }

  lemma CodeBits(a: F32)
    ensures Code(a) % 2 == 1 <==> a.b0
    ensures Code(a) / 2 % 2 == 1 <==> a.b1
    ensures Code(a) / 4 % 2 == 1 <==> a.b2
    ensures Code(a) / 8 % 2 == 1 <==> a.b3
    ensures Code(a) / 16 % 2 == 1 <==> a.b4
  {
  }

  lemma XorIfPacked(s: bool, k: Residue, n: nat, c: Residue)
    requires n == Packed(k)
    ensures XorIf(s, n, Packed(c)) == Packed(AddIf(s, k, c))
  {
    XorPacked(c, k);
  }

  /** For any constants. */
  lemma SelectionPacked(top: F32, c: Residue, k1: Residue, k2: Residue, k4: Residue, k8: Residue, k16: Residue)
    ensures Selection(Code(top), Packed(c), Packed(k1), Packed(k2), Packed(k4), Packed(k8), Packed(k16)) ==
      Packed(AddIf(top.b4, k16, AddIf(top.b3, k8, AddIf(top.b2, k4, AddIf(top.b1, k2, AddIf(top.b0, k1, c))))))
  {
    var c1 := AddIf(top.b0, k1, c);
    var c2 := AddIf(top.b1, k2, c1);
    var c4 := AddIf(top.b2, k4, c2);
    var c8 := AddIf(top.b3, k8, c4);
    CodeBits(top);
    XorIfPacked(top.b0, k1, Packed(k1), c);
    XorIfPacked(top.b1, k2, Packed(k2), c1);
    XorIfPacked(top.b2, k4, Packed(k4), c2);
    XorIfPacked(top.b3, k8, Packed(k8), c4);
    XorIfPacked(top.b4, k16, Packed(k16), c8);
  }

  lemma ConstantsPacked(top: F32, c: Residue, k1: Residue, k2: Residue, k4: Residue, k8: Residue, k16: Residue)
    requires Packed(k1) == 0x3b6a57b2 && Packed(k2) == 0x26508e6d && Packed(k4) == 0x1ea119fa
    requires Packed(k8) == 0x3d4233dd && Packed(k16) == 0x2a1462b3
    ensures Constants(Code(top), Packed(c)) ==
      Packed(AddIf(top.b4, k16, AddIf(top.b3, k8, AddIf(top.b2, k4, AddIf(top.b1, k2, AddIf(top.b0, k1, c))))))
  {
    SelectionPacked(top, c, k1, k2, k4, k8, k16);
  }

  /** The top symbol and the rest of the register. */
  lemma TopSymbol(top: nat, rest: nat)
    requires rest < 0x200_0000
    ensures (0x200_0000 * top + rest) / 0x200_0000 == top && (0x200_0000 * top + rest) % 0x200_0000 == rest
  {
  }

  lemma PackedParts(c: Residue) returns (rest: nat)
    ensures Packed(c) == 0x200_0000 * Code(c.r0) + rest && rest < 0x200_0000
    ensures rest * 32 == Packed(Residue(c.r1, c.r2, c.r3, c.r4, c.r5, ZERO))
  {
    rest := (((Code(c.r1) * 32 + Code(c.r2)) * 32 + Code(c.r3)) * 32 + Code(c.r4)) * 32 + Code(c.r5);
  }

  /** The low 25 bits move up and the new symbol takes the free place. */
  lemma ShiftPacked(c: Residue, v: F32)
    ensures Packed(c) / 0x200_0000 == Code(c.r0)
    ensures Xor(Packed(c) % 0x200_0000 * 32, Code(v)) == Packed(Residue(c.r1, c.r2, c.r3, c.r4, c.r5, v))
  {
    var rest := PackedParts(c);
    TopSymbol(Code(c.r0), rest);
    LowSymbol(Residue(c.r1, c.r2, c.r3, c.r4, c.r5, ZERO), v);
  }

  lemma LowSymbol(up: Residue, v: F32)
    requires up.r5 == ZERO
    ensures Xor(Packed(up), Code(v)) == Packed(up.(r5 := v))
  {
    XorBitwise();
    LowSymbolBitwise(Xor, up, v);
  }

  lemma LowSymbolBitwise(xor: BinaryOp, up: Residue, v: F32)
    requires Bitwise(xor) && up.r5 == ZERO
    ensures xor(Packed(up), Code(v)) == Packed(up.(r5 := v))
  {
    var low := Residue(ZERO, ZERO, ZERO, ZERO, ZERO, v);
    assert Packed(low) == Code(v);
    PackedBitwise(xor, up, low);
    assert AddR(up, low) == up.(r5 := v);
  }

  /** The round of the source on the integer is the round on symbols. */
  lemma RegisterIs(c: Residue, v: F32)
    ensures RegisterStep(Packed(c), Code(v)) == Packed(Step(c, v))
  {
    ShiftPacked(c, v);
    ConstantK1();
    ConstantK2();
    ConstantK4();
    ConstantK8();
    ConstantK16();
    ConstantsPacked(c.r0, Residue(c.r1, c.r2, c.r3, c.r4, c.r5, v), K1, K2, K4, K8, K16);
  }

  lemma PackedBound(r: Residue)
    ensures Packed(r) < 0x4000_0000
  {
  }

  lemma LastDigit(a: nat, b: nat, x: F32, y: F32)
    requires a * 32 + Code(x) == b * 32 + Code(y)
    ensures a == b && x == y
  {
    SymbolOfCode(x);
    SymbolOfCode(y);
  }

  /** No two registers are the same integer. */
  lemma PackedInjective(r: Residue, s: Residue)
    requires Packed(r) == Packed(s)
    ensures r == s
  {
    var a1, b1 := Code(r.r0) * 32 + Code(r.r1), Code(s.r0) * 32 + Code(s.r1);
    var a2, b2 := a1 * 32 + Code(r.r2), b1 * 32 + Code(s.r2);
    var a3, b3 := a2 * 32 + Code(r.r3), b2 * 32 + Code(s.r3);
    var a4, b4 := a3 * 32 + Code(r.r4), b3 * 32 + Code(s.r4);
    LastDigit(a4, b4, r.r5, s.r5);
    LastDigit(a3, b3, r.r4, s.r4);
    LastDigit(a2, b2, r.r3, s.r3);
    LastDigit(a1, b1, r.r2, s.r2);
    LastDigit(Code(r.r0), Code(s.r0), r.r1, s.r1);
    LastDigit(0, 0, r.r0, s.r0);
  }

  /** PolyMod as written: a 30-bit integer, shifts, masks and exclusive ors. */
  method PolyModRegister(vs: seq<F32>) returns (c: nat)
    ensures c == Packed(Poly(START, vs)) < 0x4000_0000
  {
    c := 1;
    ghost var r := START;
    for i := 0 to |vs|
      invariant r == Poly(START, vs[..i]) && c == Packed(r)
    {
      FoldSnoc(Step, START, vs[..i], vs[i]);
      assert vs[..i + 1] == vs[..i] + [vs[i]];
      RegisterIs(r, vs[i]);
      c, r := RegisterStep(c, Code(vs[i])), Step(r, vs[i]);
    }
    assert vs[..|vs|] == vs;
    PackedBound(r);
  }

  // ---------- A number in a comment ----------

  /** The powers e^999, e^998 and e^997, ten bits each, are not the number that the comment on
      Syndrome gives for them. */
  lemma CommentedPowers(a: nat, b: nat, c: nat)
    requires 996 < a < 998 && 997 < b < 999 && 998 < c < 1000
    ensures Index(Pow(c)) * 0x10_0000 + Index(Pow(b)) * 0x400 + Index(Pow(a)) == 0x3d0195bd != 0x31edd3c4
  {
    PowClimbs();
    Power997(Pow, a);
    Power998(Pow, b);
    Power999(Pow, c);
  }
}

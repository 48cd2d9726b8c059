/** The base field of the Bech32 checksum (src/bech32.cpp): GF(32), five-bit symbols
    as polynomials over GF(2) modulo x^5 + x^3 + 1. */
module Bech32Field {

  datatype F32 = F32(b4: bool, b3: bool, b2: bool, b1: bool, b0: bool)

  /** Short names for writing symbols out in bits. */
  const O := false
  const I := true

  const ZERO := F32(false, false, false, false, false)
  const ONE := F32(false, false, false, false, true)

  /** The symbol with a given number. */
  function F(n: nat): F32
    requires n < 32
  {
    var m3 := if n >= 16 then n - 16 else n;
    var m2 := if m3 >= 8 then m3 - 8 else m3;
    var m1 := if m2 >= 4 then m2 - 4 else m2;
    var m0 := if m1 >= 2 then m1 - 2 else m1;
    F32(n >= 16, m3 >= 8, m2 >= 4, m1 >= 2, m0 >= 1)
  }

  function Bit(b: bool): nat { if b then 1 else 0 }

  function Code(a: F32): (n: nat)
    ensures n < 32
  {
    16 * Bit(a.b4) + 8 * Bit(a.b3) + 4 * Bit(a.b2) + 2 * Bit(a.b1) + Bit(a.b0)
  }

  lemma SymbolOfCode(a: F32)
    ensures F(Code(a)) == a
  {
  }

  lemma CodeOfSymbol(n: nat)
    requires n < 32
    ensures Code(F(n)) == n
  {
  }

  /** Exclusive or. */
  function Add(a: F32, b: F32): F32 {
    F32(a.b4 != b.b4, a.b3 != b.b3, a.b2 != b.b2, a.b1 != b.b1, a.b0 != b.b0)
  }

  /** Shift left, and subtract the modulus when a term x^5 appears. */
  function TimesX(a: F32): F32 { F32(a.b3, a.b2 != a.b4, a.b1, a.b0, a.b4) }

  /** One round of the schoolbook product: x t, plus b when s is set. */
  function Acc(s: bool, b: F32, t: F32): F32 { if s then Add(b, TimesX(t)) else TimesX(t) }

  function Mul(a: F32, b: F32): F32 {
    Acc(a.b0, b, Acc(a.b1, b, Acc(a.b2, b, Acc(a.b3, b, Acc(a.b4, b, ZERO)))))
  }

  // ---------- Addition ----------

  lemma AddComm(a: F32, b: F32)
    ensures Add(a, b) == Add(b, a)
  {
  }

  lemma AddAssoc(a: F32, b: F32, c: F32)
    ensures Add(Add(a, b), c) == Add(a, Add(b, c))
  {
  }

  lemma AddSwap(a: F32, b: F32, c: F32, d: F32)
    ensures Add(Add(a, b), Add(c, d)) == Add(Add(a, c), Add(b, d))
  {
  }

  lemma XLinear(a: F32, b: F32)
    ensures TimesX(Add(a, b)) == Add(TimesX(a), TimesX(b))
  {
  }

  lemma AddZero(a: F32, b: F32)
    ensures Add(a, ZERO) == a && Add(ZERO, a) == a && (Add(a, b) == ZERO <==> a == b)
  {
  }

  // ---------- Multiplication is a commutative ring product ----------

  lemma AccRight(s: bool, b: F32, c: F32, t: F32, u: F32)
    ensures Acc(s, Add(b, c), Add(t, u)) == Add(Acc(s, b, t), Acc(s, c, u))
  {
  }

  lemma AccX(s: bool, b: F32, t: F32)
    ensures Acc(s, TimesX(b), TimesX(t)) == TimesX(Acc(s, b, t))
  {
  }

  lemma MulRight(a: F32, b: F32, c: F32)
    ensures Mul(a, Add(b, c)) == Add(Mul(a, b), Mul(a, c))
  {
    var t4, u4 := Acc(a.b4, b, ZERO), Acc(a.b4, c, ZERO);
    var t3, u3 := Acc(a.b3, b, t4), Acc(a.b3, c, u4);
    var t2, u2 := Acc(a.b2, b, t3), Acc(a.b2, c, u3);
    var t1, u1 := Acc(a.b1, b, t2), Acc(a.b1, c, u2);
    AccRight(a.b4, b, c, ZERO, ZERO);
    AccRight(a.b3, b, c, t4, u4);
    AccRight(a.b2, b, c, t3, u3);
    AccRight(a.b1, b, c, t2, u2);
    AccRight(a.b0, b, c, t1, u1);
  }

  lemma MulX(a: F32, b: F32)
    ensures Mul(a, TimesX(b)) == TimesX(Mul(a, b))
  {
    var t4 := Acc(a.b4, b, ZERO);
    var t3 := Acc(a.b3, b, t4);
    var t2 := Acc(a.b2, b, t3);
    var t1 := Acc(a.b1, b, t2);
    AccX(a.b4, b, ZERO);
    AccX(a.b3, b, t4);
    AccX(a.b2, b, t3);
    AccX(a.b1, b, t2);
    AccX(a.b0, b, t1);
  }

  lemma MulAcc(a: F32, s: bool, b: F32, t: F32)
    ensures Mul(a, Acc(s, b, t)) == Acc(s, Mul(a, b), Mul(a, t))
  {
    MulX(a, t);
    MulRight(a, b, TimesX(t));
  }

  lemma MulOne(a: F32)
    ensures Mul(a, ONE) == a && Mul(ONE, a) == a && Mul(a, ZERO) == ZERO && Mul(ZERO, a) == ZERO
  {
  }

  /** Applying a linear map that commutes with x to a schoolbook product. */
  lemma MulChain(c: F32, a: F32, b: F32, d: F32)
    requires d == Mul(c, b)
    ensures Mul(c, Mul(a, b)) == Mul(a, d)
  {
    var t4 := Acc(a.b4, b, ZERO);
    var t3 := Acc(a.b3, b, t4);
    var t2 := Acc(a.b2, b, t3);
    var t1 := Acc(a.b1, b, t2);
    MulOne(c);
    MulAcc(c, a.b4, b, ZERO);
    MulAcc(c, a.b3, b, t4);
    MulAcc(c, a.b2, b, t3);
    MulAcc(c, a.b1, b, t2);
    MulAcc(c, a.b0, b, t1);
  }

  lemma MulComm(a: F32, b: F32)
    ensures Mul(a, b) == Mul(b, a)
  {
    MulOne(a);
    MulOne(b);
    MulChain(b, a, ONE, b);
  }

  lemma MulAssoc(a: F32, b: F32, c: F32)
    ensures Mul(Mul(a, b), c) == Mul(a, Mul(b, c))
  {
    MulComm(Mul(a, b), c);
    MulComm(c, b);
    MulChain(c, a, b, Mul(b, c));
  }

  lemma MulLeft(a: F32, b: F32, c: F32)
    ensures Mul(Add(a, b), c) == Add(Mul(a, c), Mul(b, c))
  {
    MulComm(Add(a, b), c);
    MulRight(c, a, b);
    MulComm(a, c);
    MulComm(b, c);
  }
}

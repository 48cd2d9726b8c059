/** The powers of e: period exactly 1023, every non-zero element is one of them, and those
    in GF(32) are the powers of e^33. */
module Bech32Powers {
  import opened Bech32Field
  import opened Bech32Ext
  import opened Iteration

  // ---------- Squares ----------

  function Square32(c: F32): F32 { F32((c.b4 != c.b3) != c.b2, c.b4, c.b1, c.b4 != c.b3, c.b0) }

  lemma Square32Is(c: F32)
    ensures Mul(c, c) == Square32(c)
  {
    if c.b4 {
      assert c.b3 ==> Mul(c, c) == Square32(c);
    }
  }

  function Square(v: F1024): F1024 {
    F1024(Nine(Square32(v.hi)), Add(Square32(v.lo), TwentyThree(Square32(v.hi))))
  }

  lemma SquareIs(v: F1024)
    ensures Times(v, v) == Square(v)
  {
    Square32Is(v.hi);
    Square32Is(v.lo);
    MulComm(v.hi, v.lo);
    AddZero(Mul(v.hi, v.lo), Mul(v.lo, v.hi));
    AddZero(Nine(Square32(v.hi)), ZERO);
  }

  // ---------- Particular powers, by squaring and multiplying ----------

  /** Nine and TwentyThree bit by bit. */
  function NineBits(c: F32): F32 {
    F32((c.b4 != c.b3) != c.b1, (c.b4 != c.b3) != (c.b2 != c.b0), c.b4 != c.b2, c.b3 != c.b1, (c.b4 != c.b2) != c.b0)
  }

  function TwentyThreeBits(c: F32): F32 {
    F32((c.b4 != c.b3) != c.b0, c.b3 != c.b2, (c.b3 != c.b2) != (c.b1 != c.b0), (c.b2 != c.b1) != c.b0, (c.b4 != c.b1) != c.b0)
  }

  lemma BitsAgree(c: F32)
    ensures NineBits(c) == Nine(c) && TwentyThreeBits(c) == TwentyThree(c)
  {
  }

  function SquareBits(v: F1024): F1024 {
    var h := Square32(v.hi);
    F1024(NineBits(h), Add(Square32(v.lo), TwentyThreeBits(h)))
  }

  function TimesEBits(v: F1024): F1024 { F1024(Add(NineBits(v.hi), v.lo), TwentyThreeBits(v.hi)) }

  function Climb(v: F1024, odd: bool): F1024 { if odd then TimesEBits(SquareBits(v)) else SquareBits(v) }

  /** An element written out in bits. */
  function W(h4: bool, h3: bool, h2: bool, h1: bool, h0: bool, l4: bool, l3: bool, l2: bool, l1: bool, l0: bool): F1024 {
    F1024(F32(h4, h3, h2, h1, h0), F32(l4, l3, l2, l1, l0))
  }

  function Twice(n: nat, odd: bool): nat { 2 * n + if odd then 1 else 0 }

  /** What squaring and multiplying need to know about a power function. */
  ghost predicate Climbs(pow: nat -> F1024) {
    && (forall n: nat, odd: bool {:trigger pow(Twice(n, odd))} :: pow(Twice(n, odd)) == Climb(pow(n), odd))
    && (forall n: nat {:trigger pow(n)} :: 0 < n < 2 ==> pow(n) == F1024(ONE, ZERO))
  }

  lemma ClimbTo(pow: nat -> F1024, n: nat, v: F1024, odd: bool, m: nat, w: F1024)
    requires Climbs(pow) && pow(n) == v && Climb(v, odd) == w && m == Twice(n, odd)
    ensures pow(m) == w
  {
    assert pow(Twice(n, odd)) == Climb(pow(n), odd);
  }

  lemma Climbed(n: nat, odd: bool)
    ensures Pow(Twice(n, odd)) == Climb(Pow(n), odd)
  {
    var v := Pow(n);
    PowSum(n, n);
    SquareIs(v);
    BitsAgree(Square32(v.hi));
    BitsAgree(SquareBits(v).hi);
  }

  lemma FirstPower(n: nat)
    requires 0 < n < 2
    ensures Pow(n) == F1024(ONE, ZERO)
  {
    assert Pow(n) == TimesE(Iter(TimesE, n - 1, UNIT));
  }

  lemma PowClimbs()
    ensures Climbs(Pow)
  {
    forall n: nat, odd: bool ensures Pow(Twice(n, odd)) == Climb(Pow(n), odd) { Climbed(n, odd); }
    forall n: nat | 0 < n < 2 ensures Pow(n) == F1024(ONE, ZERO) { FirstPower(n); }
  }

  lemma Power1023(pow: nat -> F1024, n: nat)
    requires Climbs(pow) && 1022 < n < 1024
    ensures pow(n) == W(O, O, O, O, O,  O, O, O, O, I)
  {
    var n1: nat :| 0 < n1 < 2;
    assert pow(n1) == W(O, O, O, O, I,  O, O, O, O, O);
    var n3 := Twice(n1, true);
    ClimbTo(pow, n1, W(O, O, O, O, I,  O, O, O, O, O), true, n3, W(O, O, I, O, O,  O, I, O, I, I));
    var n7 := Twice(n3, true);
    ClimbTo(pow, n3, W(O, O, I, O, O,  O, I, O, I, I), true, n7, W(O, O, I, O, I,  I, O, I, O, O));
    var n15 := Twice(n7, true);
    ClimbTo(pow, n7, W(O, O, I, O, I,  I, O, I, O, O), true, n15, W(I, I, I, O, O,  I, I, I, I, I));
    var n31 := Twice(n15, true);
    ClimbTo(pow, n15, W(I, I, I, O, O,  I, I, I, I, I), true, n31, W(O, O, I, I, O,  I, I, I, I, O));
    var n63 := Twice(n31, true);
    ClimbTo(pow, n31, W(O, O, I, I, O,  I, I, I, I, O), true, n63, W(I, I, I, I, O,  I, O, O, O, I));
    var n127 := Twice(n63, true);
    ClimbTo(pow, n63, W(I, I, I, I, O,  I, O, O, O, I), true, n127, W(I, O, O, O, O,  I, I, O, I, I));
    var n255 := Twice(n127, true);
    ClimbTo(pow, n127, W(I, O, O, O, O,  I, I, O, I, I), true, n255, W(I, I, I, I, O,  O, I, O, O, O));
    var n511 := Twice(n255, true);
    ClimbTo(pow, n255, W(I, I, I, I, O,  O, I, O, O, O), true, n511, W(I, I, O, O, I,  I, I, O, I, I));
    ClimbTo(pow, n511, W(I, I, O, O, I,  I, I, O, I, I), true, n, W(O, O, O, O, O,  O, O, O, O, I));
  }

  lemma Power341(pow: nat -> F1024, n: nat)
    requires Climbs(pow) && 340 < n < 342
    ensures pow(n) == W(O, I, O, I, I,  O, I, I, O, I)
  {
    var n1: nat :| 0 < n1 < 2;
    assert pow(n1) == W(O, O, O, O, I,  O, O, O, O, O);
    var n2 := Twice(n1, false);
    ClimbTo(pow, n1, W(O, O, O, O, I,  O, O, O, O, O), false, n2, W(O, I, O, O, I,  I, O, I, I, I));
    var n5 := Twice(n2, true);
    ClimbTo(pow, n2, W(O, I, O, O, I,  I, O, I, I, I), true, n5, W(I, O, O, O, I,  O, I, O, O, I));
    var n10 := Twice(n5, false);
    ClimbTo(pow, n5, W(I, O, O, O, I,  O, I, O, O, I), false, n10, W(I, I, I, O, O,  O, I, I, I, O));
    var n21 := Twice(n10, true);
    ClimbTo(pow, n10, W(I, I, I, O, O,  O, I, I, I, O), true, n21, W(I, I, I, O, I,  I, I, I, I, O));
    var n42 := Twice(n21, false);
    ClimbTo(pow, n21, W(I, I, I, O, I,  I, I, I, I, O), false, n42, W(O, I, I, I, O,  O, O, I, I, O));
    var n85 := Twice(n42, true);
    ClimbTo(pow, n42, W(O, I, I, I, O,  O, O, I, I, O), true, n85, W(O, I, I, O, O,  I, O, O, I, I));
    var n170 := Twice(n85, false);
    ClimbTo(pow, n85, W(O, I, I, O, O,  I, O, O, I, I), false, n170, W(I, O, O, I, O,  I, I, O, O, O));
    ClimbTo(pow, n170, W(I, O, O, I, O,  I, I, O, O, O), true, n, W(O, I, O, I, I,  O, I, I, O, I));
  }

  lemma Power93(pow: nat -> F1024, n: nat)
    requires Climbs(pow) && 92 < n < 94
    ensures pow(n) == W(I, I, O, I, O,  I, O, I, I, O)
  {
    var n1: nat :| 0 < n1 < 2;
    assert pow(n1) == W(O, O, O, O, I,  O, O, O, O, O);
    var n2 := Twice(n1, false);
    ClimbTo(pow, n1, W(O, O, O, O, I,  O, O, O, O, O), false, n2, W(O, I, O, O, I,  I, O, I, I, I));
    var n5 := Twice(n2, true);
    ClimbTo(pow, n2, W(O, I, O, O, I,  I, O, I, I, I), true, n5, W(I, O, O, O, I,  O, I, O, O, I));
    var n11 := Twice(n5, true);
    ClimbTo(pow, n5, W(I, O, O, O, I,  O, I, O, O, I), true, n11, W(O, O, I, O, O,  O, O, O, I, I));
    var n23 := Twice(n11, true);
    ClimbTo(pow, n11, W(O, O, I, O, O,  O, O, O, I, I), true, n23, W(I, O, I, I, I,  I, O, I, O, O));
    var n46 := Twice(n23, false);
    ClimbTo(pow, n23, W(I, O, I, I, I,  I, O, I, O, O), false, n46, W(O, I, I, O, O,  O, I, O, O, O));
    ClimbTo(pow, n46, W(O, I, I, O, O,  O, I, O, O, O), true, n, W(I, I, O, I, O,  I, O, I, I, O));
  }

  lemma Power33(pow: nat -> F1024, n: nat)
    requires Climbs(pow) && 32 < n < 34
    ensures pow(n) == W(O, O, O, O, O,  I, O, I, I, I)
  {
    var n1: nat :| 0 < n1 < 2;
    assert pow(n1) == W(O, O, O, O, I,  O, O, O, O, O);
    var n2 := Twice(n1, false);
    ClimbTo(pow, n1, W(O, O, O, O, I,  O, O, O, O, O), false, n2, W(O, I, O, O, I,  I, O, I, I, I));
    var n4 := Twice(n2, false);
    ClimbTo(pow, n2, W(O, I, O, O, I,  I, O, I, I, I), false, n4, W(O, O, I, I, O,  O, I, I, I, O));
    var n8 := Twice(n4, false);
    ClimbTo(pow, n4, W(O, O, I, I, O,  O, I, I, I, O), false, n8, W(I, O, O, O, O,  I, I, O, O, I));
    var n16 := Twice(n8, false);
    ClimbTo(pow, n8, W(I, O, O, O, O,  I, I, O, O, I), false, n16, W(I, O, I, O, I,  O, O, O, I, I));
    ClimbTo(pow, n16, W(I, O, I, O, I,  O, O, O, I, I), true, n, W(O, O, O, O, O,  I, O, I, I, I));
  }

  lemma Power997(pow: nat -> F1024, n: nat)
    requires Climbs(pow) && 996 < n < 998
    ensures pow(n) == W(O, I, I, O, I,  I, I, I, O, I)
  {
    var n1: nat :| 0 < n1 < 2;
    assert pow(n1) == W(O, O, O, O, I,  O, O, O, O, O);
    var n3 := Twice(n1, true);
    ClimbTo(pow, n1, W(O, O, O, O, I,  O, O, O, O, O), true, n3, W(O, O, I, O, O,  O, I, O, I, I));
    var n7 := Twice(n3, true);
    ClimbTo(pow, n3, W(O, O, I, O, O,  O, I, O, I, I), true, n7, W(O, O, I, O, I,  I, O, I, O, O));
    var n15 := Twice(n7, true);
    ClimbTo(pow, n7, W(O, O, I, O, I,  I, O, I, O, O), true, n15, W(I, I, I, O, O,  I, I, I, I, I));
    var n31 := Twice(n15, true);
    ClimbTo(pow, n15, W(I, I, I, O, O,  I, I, I, I, I), true, n31, W(O, O, I, I, O,  I, I, I, I, O));
    var n62 := Twice(n31, false);
    ClimbTo(pow, n31, W(O, O, I, I, O,  I, I, I, I, O), false, n62, W(I, O, O, O, O,  O, O, O, I, I));
    var n124 := Twice(n62, false);
    ClimbTo(pow, n62, W(I, O, O, O, O,  O, O, O, I, I), false, n124, W(I, O, I, O, I,  O, I, I, I, I));
    var n249 := Twice(n124, true);
    ClimbTo(pow, n124, W(I, O, I, O, I,  O, I, I, I, I), true, n249, W(O, O, O, I, O,  I, O, I, I, I));
    var n498 := Twice(n249, false);
    ClimbTo(pow, n249, W(O, O, O, I, O,  I, O, I, I, I), false, n498, W(O, I, I, O, I,  O, O, O, O, I));
    ClimbTo(pow, n498, W(O, I, I, O, I,  O, O, O, O, I), true, n, W(O, I, I, O, I,  I, I, I, O, I));
  }

  lemma Power998(pow: nat -> F1024, n: nat)
    requires Climbs(pow) && 997 < n < 999
    ensures pow(n) == W(O, O, O, I, I,  O, O, I, O, I)
  {
    var n1: nat :| 0 < n1 < 2;
    assert pow(n1) == W(O, O, O, O, I,  O, O, O, O, O);
    var n3 := Twice(n1, true);
    ClimbTo(pow, n1, W(O, O, O, O, I,  O, O, O, O, O), true, n3, W(O, O, I, O, O,  O, I, O, I, I));
    var n7 := Twice(n3, true);
    ClimbTo(pow, n3, W(O, O, I, O, O,  O, I, O, I, I), true, n7, W(O, O, I, O, I,  I, O, I, O, O));
    var n15 := Twice(n7, true);
    ClimbTo(pow, n7, W(O, O, I, O, I,  I, O, I, O, O), true, n15, W(I, I, I, O, O,  I, I, I, I, I));
    var n31 := Twice(n15, true);
    ClimbTo(pow, n15, W(I, I, I, O, O,  I, I, I, I, I), true, n31, W(O, O, I, I, O,  I, I, I, I, O));
    var n62 := Twice(n31, false);
    ClimbTo(pow, n31, W(O, O, I, I, O,  I, I, I, I, O), false, n62, W(I, O, O, O, O,  O, O, O, I, I));
    var n124 := Twice(n62, false);
    ClimbTo(pow, n62, W(I, O, O, O, O,  O, O, O, I, I), false, n124, W(I, O, I, O, I,  O, I, I, I, I));
    var n249 := Twice(n124, true);
    ClimbTo(pow, n124, W(I, O, I, O, I,  O, I, I, I, I), true, n249, W(O, O, O, I, O,  I, O, I, I, I));
    var n499 := Twice(n249, true);
    ClimbTo(pow, n249, W(O, O, O, I, O,  I, O, I, I, I), true, n499, W(I, I, I, I, I,  O, O, I, O, I));
    ClimbTo(pow, n499, W(I, I, I, I, I,  O, O, I, O, I), false, n, W(O, O, O, I, I,  O, O, I, O, I));
  }

  lemma Power999(pow: nat -> F1024, n: nat)
    requires Climbs(pow) && 998 < n < 1000
    ensures pow(n) == W(I, I, I, I, O,  I, O, O, O, O)
  {
    var n1: nat :| 0 < n1 < 2;
    assert pow(n1) == W(O, O, O, O, I,  O, O, O, O, O);
    var n3 := Twice(n1, true);
    ClimbTo(pow, n1, W(O, O, O, O, I,  O, O, O, O, O), true, n3, W(O, O, I, O, O,  O, I, O, I, I));
    var n7 := Twice(n3, true);
    ClimbTo(pow, n3, W(O, O, I, O, O,  O, I, O, I, I), true, n7, W(O, O, I, O, I,  I, O, I, O, O));
    var n15 := Twice(n7, true);
    ClimbTo(pow, n7, W(O, O, I, O, I,  I, O, I, O, O), true, n15, W(I, I, I, O, O,  I, I, I, I, I));
    var n31 := Twice(n15, true);
    ClimbTo(pow, n15, W(I, I, I, O, O,  I, I, I, I, I), true, n31, W(O, O, I, I, O,  I, I, I, I, O));
    var n62 := Twice(n31, false);
    ClimbTo(pow, n31, W(O, O, I, I, O,  I, I, I, I, O), false, n62, W(I, O, O, O, O,  O, O, O, I, I));
    var n124 := Twice(n62, false);
    ClimbTo(pow, n62, W(I, O, O, O, O,  O, O, O, I, I), false, n124, W(I, O, I, O, I,  O, I, I, I, I));
    var n249 := Twice(n124, true);
    ClimbTo(pow, n124, W(I, O, I, O, I,  O, I, I, I, I), true, n249, W(O, O, O, I, O,  I, O, I, I, I));
    var n499 := Twice(n249, true);
    ClimbTo(pow, n249, W(O, O, O, I, O,  I, O, I, I, I), true, n499, W(I, I, I, I, I,  O, O, I, O, I));
    ClimbTo(pow, n499, W(I, I, I, I, I,  O, O, I, O, I), true, n, W(I, I, I, I, O,  I, O, O, O, O));
  }
}

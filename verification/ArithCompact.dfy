/** The compact form of difficulty targets (src/arith_uint256.cpp, SetCompact and GetCompact)
    on values. */
module ArithCompact {
  import opened Limbs
  import opened ArithShift
  import opened ArithShiftRight
  import opened ArithDiv

  /** A compact number: size byte, sign bit and 23-bit mantissa. */
  datatype Compact = Compact(size: nat, negative: bool, word: nat)

  predicate IsCompact(c: Compact) { c.size < 256 && c.word < 0x80_0000 }

  function Unpack(n: nat): (c: Compact)
    requires n < 0x1_0000_0000
    ensures IsCompact(c)
  {
    Compact(n / 0x100_0000, n / 0x80_0000 % 2 == 1, n % 0x80_0000)
  }

  function Pack(c: Compact): nat { c.size * 0x100_0000 + (if c.negative then 0x80_0000 else 0) + c.word }

  lemma UnpackPack(c: Compact)
    requires IsCompact(c)
    ensures Pack(c) < 0x1_0000_0000 && Unpack(Pack(c)) == c
  {
  }

  /** The three fields of a compact number, from the top. */
  lemma PackUnpack(n: nat)
    requires n < 0x1_0000_0000
    ensures var c := Unpack(n); n == c.size * 0x100_0000 + (if c.negative then 0x80_0000 else 0) + c.word && Pack(c) == n
  {
  }

  /** 256^k. */
  function Bytes(k: nat): (p: nat)
    ensures p > 0
  {
    Pow2(8 * k)
  }

  function Quotient(a: nat, b: nat): (q: nat)
    requires b > 0
  {
    a / b
  }

  /** The number a compact form stands for: word 256^(size - 3), rounded down. */
  function Target(c: Compact): nat {
    if c.size <= 3 then Quotient(c.word, Bytes(3 - c.size)) else c.word * Bytes(c.size - 3)
  }

  /** The mantissa that SetCompact keeps. */
  function Kept(c: Compact): nat { if c.size <= 3 then Quotient(c.word, Bytes(3 - c.size)) else c.word }

  predicate Overflows(c: Compact) {
    Kept(c) != 0 && (c.size > 34 || (Kept(c) > 0xff && c.size > 33) || (Kept(c) > 0xffff && c.size > 32))
  }

  lemma BytesSum(m: nat, n: nat)
    ensures Bytes(m + n) == Bytes(m) * Bytes(n)
  {
    Pow2Sum(8 * m, 8 * n);
  }

  lemma FewBytes()
    ensures Bytes(0) == 1 && Bytes(1) == 0x100 && Bytes(2) == 0x1_0000 && Bytes(3) == 0x100_0000
  {
    assert Pow2(8) == 256;
    BytesSum(1, 1);
    BytesSum(1, 2);
  }

  lemma FitsLemma(w: nat, p: nat, q: nat, limit: nat)
    requires p > 0 && limit == q * p
    ensures w * p >= limit <==> w >= q
  {
    MulMonotone(p, q, w);
    MulMonotone(p, w + 1, q);
    assert p * (w + 1) == w * p + p && p * q == q * p && p * w == w * p;
  }

  /** 256^32 is 2^256. */
  lemma AllBytes(z: nat)
    requires 31 < z < 33
    ensures Bytes(z) == Modulus(8)
  {
    var k: nat :| 7 < k < 9;
    Pow2Modulus(k);
  }

  /** The overflow flag says exactly that the number does not fit into 256 bits. */
  lemma OverflowExact(c: Compact)
    requires IsCompact(c)
    ensures Overflows(c) <==> Target(c) >= Modulus(8)
  {
    if c.size <= 3 {
      SmallTarget(c);
    } else {
      var z: nat :| 31 < z < 33;
      AllBytes(z);
      LargeTarget(c, z, c.size - 3);
    }
  }

  lemma LargeTarget(c: Compact, z: nat, k: nat)
    requires IsCompact(c) && 31 < z < 33 && k > 0 && c.size == k + 3
    ensures Overflows(c) <==> c.word * Bytes(k) >= Bytes(z)
  {
    if k >= z {
      BytesSum(k - z, z);
      BigShift(c.word, Bytes(k - z), Bytes(z));
    } else {
      BytesSum(z - k, k);
      FitsLemma(c.word, Bytes(k), Bytes(z - k), Bytes(z));
      Thresholds(c.word, z - k);
    }
  }

  lemma BigShift(w: nat, a: nat, b: nat)
    requires a > 0 && b > 0
    ensures w * (a * b) >= b <==> w > 0
  {
    if w > 0 {
      assert w * (a * b) == (w * a) * b;
      MulGrows(w, a);
      MulGrows(b, w * a);
    }
  }

  lemma SmallTarget(c: Compact)
    requires IsCompact(c) && c.size <= 3
    ensures Target(c) < 0x80_0000 < Modulus(8)
  {
    DivBound(c.word, Bytes(3 - c.size));
  }

  /** w 256^(32 - j) reaches 2^256 when w reaches 256^j. */
  lemma Thresholds(w: nat, j: nat)
    requires w < 0x80_0000 && 1 <= j <= 31
    ensures w >= Bytes(j) <==> w != 0 && ((w > 0xff && j == 1) || (w > 0xffff && j <= 2))
  {
    FewBytes();
    if j >= 3 {
      Pow2Grows(24, 8 * j);
    }
  }

  /** The target is the mantissa times 256^(size - 3), rounded down: 256^3 of it fit into word 256^size. */
  lemma TargetFloor(c: Compact)
    ensures Target(c) * Bytes(3) <= c.word * Bytes(c.size) < (Target(c) + 1) * Bytes(3)
  {
    if c.size <= 3 {
      var p, q := Bytes(3 - c.size), Bytes(c.size);
      BytesSum(3 - c.size, c.size);
      FloorScaled(c.word, p, q);
    } else {
      BytesSum(c.size - 3, 3);
      assert c.word * Bytes(c.size) == Target(c) * Bytes(3);
    }
  }

  lemma FloorScaled(w: nat, p: nat, q: nat)
    requires p > 0 && q > 0
    ensures Quotient(w, p) * (p * q) <= w * q < (Quotient(w, p) + 1) * (p * q)
  {
    var x := w / p;
    assert w == p * x + w % p;
    MulMonotone(q, p * x, w);
    MulMonotone(q, w + 1, p * x + p);
    assert x * (p * q) == q * (p * x) && (x + 1) * (p * q) == q * (p * x + p) && q * w == w * q && q * (w + 1) == w * q + q;
  }

  // ---------- GetCompact ----------

  /** Number of bytes of a number of n bits. */
  function ByteCount(n: nat): nat { (n + 7) / 8 }

  /** The top three bytes. */
  function Top(v: nat, size: nat): nat {
    if size <= 3 then v * Bytes(3 - size) else Quotient(v, Bytes(size - 3))
  }

  /** A mantissa with its sign bit set moves down one byte. */
  function Normal(size: nat, word: nat, negative: bool): Compact {
    if word >= 0x80_0000 then Compact(size + 1, negative && word / 256 != 0, word / 256)
    else Compact(size, negative && word != 0, word)
  }

  function CompactOf(v: nat, n: nat, negative: bool): Compact {
    Normal(ByteCount(n), Top(v, ByteCount(n)), negative)
  }

  /** How many low bytes a compact form does not show. */
  function Dropped(c: Compact): nat { if c.size <= 3 then 0 else c.size - 3 }

  /** v with its low d bytes cleared. */
  function Cut(v: nat, d: nat): nat { Quotient(v, Bytes(d)) * Bytes(d) }

  lemma QuotientBelow(v: nat, p: nat, q: nat)
    requires p > 0 && v < p * q
    ensures Quotient(v, p) < q
  {
    var x := v / p;
    MulMonotone(p, q, x);
  }

  lemma TopBound(v: nat, n: nat)
    requires BitLength(v, n)
    ensures Top(v, ByteCount(n)) < 0x100_0000
  {
    var s := ByteCount(n);
    FewBytes();
    Pow2Grows(n, 8 * s);
    if s <= 3 {
      BytesSum(s, 3 - s);
      BelowProduct(Bytes(3 - s), v, Bytes(s));
    } else {
      BytesSum(s - 3, 3);
      QuotientBelow(v, Bytes(s - 3), Bytes(3));
    }
  }

  lemma CompactFits(v: nat, n: nat, negative: bool)
    requires BitLength(v, n) && n <= 256
    ensures IsCompact(CompactOf(v, n, negative)) && CompactOf(v, n, negative).size <= 33
  {
    TopBound(v, n);
  }

  /** A form that drops bytes fills its mantissa, so no form shows more of the number. */
  lemma CompactPrecise(v: nat, n: nat, negative: bool)
    requires BitLength(v, n)
    ensures var c := CompactOf(v, n, negative); Dropped(c) > 0 ==> 0x8000 <= c.word < 0x80_0000
  {
    var s := ByteCount(n);
    TopBound(v, n);
    if s > 3 {
      FewBytes();
      Pow2Grows(8 * (s - 1), n - 1);
      BytesSum(s - 3, 2);
      AtLeast(v, Bytes(s - 3), 0x1_0000);
      TopAtLeast(Quotient(v, Bytes(s - 3)), Bytes(s - 3));
    }
  }

  lemma TopAtLeast(w: nat, p: nat)
    requires p > 0 && w * p >= p * 0x1_0000
    ensures w >= 0x1_0000
  {
    MulMonotone(p, w + 1, 0x1_0000);
  }

  lemma ExactDiv(a: nat, p: nat)
    requires p > 0
    ensures Quotient(a * p, p) == a
  {
    ModUnique(a * p, p, a, 0);
  }

  lemma CutNothing(v: nat)
    ensures Cut(v, 0) == v
  {
    FewBytes();
  }

  lemma SmallWord(v: nat, s: nat, negative: bool)
    requires s <= 3
    ensures var c := Normal(s, Top(v, s), negative); Target(c) == Cut(v, Dropped(c))
  {
    FewBytes();
    CutNothing(v);
    ExactDiv(v, Bytes(3 - s));
    if s <= 2 {
      BytesSum(2 - s, 1);
      assert v * Bytes(3 - s) == (v * Bytes(2 - s)) * 256;
      ExactDiv(v * Bytes(2 - s), 256);
      ExactDiv(v, Bytes(2 - s));
    }
  }

  lemma LargeWord(v: nat, s: nat, negative: bool)
    requires s > 3
    ensures var c := Normal(s, Top(v, s), negative); Target(c) == Cut(v, Dropped(c)) && c.word == Quotient(v, Bytes(Dropped(c)))
  {
    FewBytes();
    BytesSum(s - 3, 1);
    DivDiv(v, Bytes(s - 3), 256);
  }

  /** SetCompact after GetCompact clears low bytes and nothing else. */
  lemma CompactCuts(v: nat, n: nat, negative: bool)
    requires BitLength(v, n)
    ensures var c := CompactOf(v, n, negative); Target(c) == Cut(v, Dropped(c))
  {
    if ByteCount(n) <= 3 {
      SmallWord(v, ByteCount(n), negative);
    } else {
      LargeWord(v, ByteCount(n), negative);
    }
  }

  lemma CutBelow(v: nat, d: nat)
    ensures Cut(v, d) <= v < Cut(v, d) + Bytes(d)
  {
    var p := Bytes(d);
    assert v == p * (v / p) + v % p;
    Swap(p, v / p);
  }

  /** Cutting below the leading bit keeps the bit length. */
  lemma CutLength(v: nat, n: nat, d: nat)
    requires BitLength(v, n) && n > 8 * d
    ensures BitLength(Cut(v, d), n)
  {
    var p, h := Bytes(d), Pow2(n - 1 - 8 * d);
    CutBelow(v, d);
    Pow2Sum(8 * d, n - 1 - 8 * d);
    AtLeast(v, p, h);
  }

  lemma AtLeast(v: nat, p: nat, h: nat)
    requires p > 0 && p * h <= v
    ensures Quotient(v, p) * p >= p * h
  {
    var x := v / p;
    assert v < p * (x + 1);
    MulMonotone(p, x + 1, h);
    MulMonotone(p, h, x);
    Swap(p, x);
  }

  lemma CutTop(v: nat, s: nat, d: nat)
    requires s > 3 && (d == s - 3 || d == s - 2)
    ensures Top(Cut(v, d), s) == if d == s - 3 then Top(v, s) else Top(v, s) / 256 * 256
  {
    if d == s - 3 {
      ExactDiv(Quotient(v, Bytes(d)), Bytes(d));
    } else {
      FewBytes();
      BytesSum(s - 3, 1);
      DivDiv(v, Bytes(s - 3), 256);
      var w := Quotient(v, Bytes(d));
      assert w * (Bytes(s - 3) * 256) == (w * 256) * Bytes(s - 3);
      ExactDiv(w * 256, Bytes(s - 3));
    }
  }

  lemma NormalAgain(s: nat, word: nat, negative: bool)
    ensures word >= 0x80_0000 ==> Normal(s, word / 256 * 256, negative) == Normal(s, word, negative)
  {
  }

  /** A second round trip changes nothing. */
  lemma CompactTwice(v: nat, n: nat, negative: bool)
    requires BitLength(v, n)
    ensures var c := CompactOf(v, n, negative); BitLength(Target(c), n) && CompactOf(Target(c), n, negative) == c
  {
    var s := ByteCount(n);
    var c := CompactOf(v, n, negative);
    var d := Dropped(c);
    CompactCuts(v, n, negative);
    if d == 0 {
      CutNothing(v);
    } else {
      CutLength(v, n, d);
      if s > 3 {
        CutTop(v, s, d);
      } else {
        FewBytes();
      }
      NormalAgain(s, Top(v, s), negative);
    }
  }

  lemma LengthLimit(v: nat, n: nat)
    requires BitLength(v, n) && n <= 256
    ensures v < Modulus(8)
  {
    var k: nat :| 7 < k < 9;
    Pow2Modulus(k);
    Pow2Grows(n, 32 * k);
  }

  /** What GetCompact produces is accepted back without flags, never above v and less than
      one unit of the last shown byte below it. */
  lemma CompactRoundTrip(v: nat, n: nat)
    requires BitLength(v, n) && n <= 256
    ensures var c := CompactOf(v, n, false);
            !Overflows(c) && !c.negative && Target(c) <= v < Target(c) + Bytes(Dropped(c))
  {
    var c := CompactOf(v, n, false);
    CompactFits(v, n, false);
    CompactCuts(v, n, false);
    CutBelow(v, Dropped(c));
    LengthLimit(v, n);
    OverflowExact(c);
  }
}

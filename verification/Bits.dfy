/** Numbers as bits, most significant first. */
module Bits {
  import opened ArithShift
  import Limbs

  const WORD := 0x1_0000_0000_0000_0000

  function BitsOf(x: nat, n: nat): (s: seq<bool>)
    ensures |s| == n
  {
    if n == 0 then [] else BitsOf(x / 2, n - 1) + [x % 2 == 1]
  }

  function NumberOf(s: seq<bool>): nat {
    if s == [] then 0 else 2 * NumberOf(s[..|s| - 1]) + if s[|s| - 1] then 1 else 0
  }

  /** Bit i counts from the most significant one. */
  lemma {:induction false} BitAt(x: nat, n: nat, i: nat)
    requires i < n
    ensures BitsOf(x, n)[i] <==> Down(x, n - 1 - i) % 2 == 1
  {
    if i < n - 1 {
      BitAt(x / 2, n - 1, i);
    }
  }

  lemma {:induction false} NumberBound(s: seq<bool>)
    ensures NumberOf(s) < Pow2(|s|)
  {
    if s != [] {
      NumberBound(s[..|s| - 1]);
    }
  }

  lemma {:induction false} BitsOfNumber(s: seq<bool>)
    ensures BitsOf(NumberOf(s), |s|) == s
  {
    if s != [] {
      BitsOfNumber(s[..|s| - 1]);
    }
  }

  /** Only the low n bits count. */
  lemma {:induction false} NumberOfBits(x: nat, n: nat, q: nat, r: nat)
    requires x == Pow2(n) * q + r && r < Pow2(n)
    ensures NumberOf(BitsOf(x, n)) == r
  {
    if n > 0 {
      assert x == 2 * (Pow2(n - 1) * q) + r;
      assert x / 2 == Pow2(n - 1) * q + r / 2 && x % 2 == r % 2;
      NumberOfBits(x / 2, n - 1, q, r / 2);
      assert BitsOf(x, n)[..n - 1] == BitsOf(x / 2, n - 1);
    }
  }

  lemma SmallNumber(x: nat, n: nat)
    requires x < Pow2(n)
    ensures NumberOf(BitsOf(x, n)) == x
  {
    NumberOfBits(x, n, 0, x);
  }

  lemma {:induction false} NumberConcat(s: seq<bool>, t: seq<bool>)
    ensures NumberOf(s + t) == NumberOf(s) * Pow2(|t|) + NumberOf(t)
  {
    if t == [] {
      assert s + t == s;
    } else {
      var k := |t| - 1;
      NumberConcat(s, t[..k]);
      assert (s + t)[..|s| + k] == s + t[..k];
      assert 2 * (NumberOf(s) * Pow2(k)) == NumberOf(s) * Pow2(|t|);
    }
  }

  function Repeated(b: bool, n: nat): (s: seq<bool>)
    ensures |s| == n
  {
    seq(n, _ => b)
  }

  lemma {:induction false} ZeroBits(n: nat)
    ensures NumberOf(Repeated(false, n)) == 0
  {
    if n > 0 {
      ZeroBits(n - 1);
      assert Repeated(false, n)[..n - 1] == Repeated(false, n - 1);
    }
  }

  lemma {:induction false} OneBits(n: nat)
    ensures NumberOf(Repeated(true, n)) == Pow2(n) - 1
  {
    if n > 0 {
      OneBits(n - 1);
      assert Repeated(true, n)[..n - 1] == Repeated(true, n - 1);
    }
  }

  lemma Pow2Word(n: nat)
    requires 63 < n < 65
    ensures Pow2(n) == WORD
  {
    Pow2Limb();
    var h: nat :| 31 < h < 33;
    Pow2Sum(h, h);
  }

  lemma Pow2Byte(n: nat)
    requires 7 < n < 9
    ensures Pow2(n) == 256
  {
    assert Pow2(8) == 256;
  }

  lemma Pow2Mono(m: nat, n: nat)
    requires m <= n
    ensures Pow2(m) <= Pow2(n)
  {
    Pow2Sum(m, n - m);
    Limbs.MulGrows(Pow2(m), Pow2(n - m));
  }

  /** A word of ones has n ones at its end. */
  lemma AllOnes(n: nat)
    requires n <= 64
    ensures BitsOf(WORD - 1, n) == Repeated(true, n)
  {
    var w: nat :| 63 < w < 65;
    Pow2Word(w);
    Pow2Sum(n, w - n);
    OneBits(n);
    OnesSplit(Pow2(n), Pow2(w - n));
    NumberOfBits(WORD - 1, n, Pow2(w - n) - 1, Pow2(n) - 1);
    BitsOfNumber(Repeated(true, n));
    BitsOfNumber(BitsOf(WORD - 1, n));
  }

  lemma OnesSplit(p: nat, q: nat)
    requires p > 0 && q > 0
    ensures p * q - 1 == p * (q - 1) + (p - 1)
  {
  }

  // ---------- Shifts ----------

  lemma {:induction false} BitsSuffix(x: nat, n: nat, k: nat)
    requires k <= n
    ensures BitsOf(x, n)[n - k..] == BitsOf(x, k)
  {
    if k > 0 {
      BitsSuffix(x / 2, n - 1, k - 1);
      assert BitsOf(x, n)[n - k..] == BitsOf(x / 2, n - 1)[n - k..] + [x % 2 == 1];
    }
  }

  lemma Doubled(y: nat, n: nat)
    requires n > 0
    ensures BitsOf(2 * y, n) == BitsOf(y, n - 1) + [false]
  {
  }

  /** x << k, without an end of the word. */
  function Up(x: nat, k: nat): nat { if k == 0 then x else 2 * Up(x, k - 1) }

  /** x >> k */
  function Down(x: nat, k: nat): nat { if k == 0 then x else Down(x / 2, k - 1) }

  lemma {:induction false} UpIs(x: nat, k: nat)
    ensures Up(x, k) == x * Pow2(k)
  {
    if k > 0 {
      UpIs(x, k - 1);
      assert 2 * (x * Pow2(k - 1)) == x * Pow2(k);
    }
  }

  /** Shifting down drops the remainder. */
  lemma {:induction false} DownIs(x: nat, k: nat) returns (r: nat)
    ensures x == Up(Down(x, k), k) + r && r < Pow2(k)
  {
    if k == 0 {
      r := 0;
    } else {
      var half := DownIs(x / 2, k - 1);
      r := 2 * half + x % 2;
    }
  }

  lemma {:induction false} UpBits(x: nat, k: nat, n: nat)
    requires k <= n
    ensures BitsOf(Up(x, k), n) == BitsOf(x, n - k) + Repeated(false, k)
  {
    if k > 0 {
      UpBits(x, k - 1, n - 1);
      Doubled(Up(x, k - 1), n);
      assert Repeated(false, k) == Repeated(false, k - 1) + [false];
    }
  }

  lemma {:induction false} DownBits(x: nat, k: nat, n: nat)
    requires k <= n
    ensures BitsOf(Down(x, k), n - k) == BitsOf(x, n)[..n - k]
  {
    if k > 0 {
      DownBits(x / 2, k - 1, n - 1);
    } else {
      assert BitsOf(x, n)[..n] == BitsOf(x, n);
    }
  }

  lemma {:induction false} DownSmall(x: nat, k: nat, n: nat)
    requires k <= n && x < Pow2(n)
    ensures Down(x, k) < Pow2(n - k)
  {
    if k > 0 {
      DownSmall(x / 2, k - 1, n - 1);
    }
  }

  /** Bits from n up do not show among the low n. */
  lemma {:induction false} LowBits(x: nat, n: nat, q: nat, r: nat)
    requires x == Pow2(n) * q + r
    ensures BitsOf(x, n) == BitsOf(r, n)
  {
    if n > 0 {
      assert x == 2 * (Pow2(n - 1) * q) + r;
      assert x / 2 == Pow2(n - 1) * q + r / 2 && x % 2 == r % 2;
      LowBits(x / 2, n - 1, q, r / 2);
    }
  }

  // ---------- Bytes ----------

  /** The eight bits of a byte; the width is kept symbolic so that it is not unrolled. */
  ghost function Octet(b: nat): (s: seq<bool>)
    ensures |s| == 8
  {
    var e: nat :| 7 < e < 9;
    BitsOf(b, e)
  }

  lemma OctetIs(b: nat, e: nat)
    requires 7 < e < 9
    ensures Octet(b) == BitsOf(b, e)
  {
  }

  ghost function BytesBits(s: seq<nat>): (r: seq<bool>)
    ensures |r| == 8 * |s|
  {
    if s == [] then [] else BytesBits(s[..|s| - 1]) + Octet(s[|s| - 1])
  }

  lemma {:induction false} BytesCons(s: seq<nat>)
    requires s != []
    ensures BytesBits(s) == Octet(s[0]) + BytesBits(s[1..])
  {
    var k := |s| - 1;
    if k > 0 {
      BytesCons(s[..k]);
      assert s[1..][..k - 1] == s[..k][1..];
      assert s[1..][k - 1] == s[k];
    }
  }
}

/** The height a skip pointer jumps to, read off the binary form of a height
    (src/chain.cpp, GetSkipHeight). */
module ChainSkip {
  import opened ChainIndex

  function ShiftLeft(x: nat, k: nat): nat { if k == 0 then x else 2 * ShiftLeft(x, k - 1) }

  /** k is the place of the lowest one of n, and the bits of a are those above it. */
  ghost predicate Form(n: nat, a: nat, k: nat) { n == ShiftLeft(2 * a + 1, k) }

  lemma {:induction false} HasForm(n: nat) returns (a: nat, k: nat)
    requires n > 0
    ensures Form(n, a, k) && (k == 0 <==> n % 2 == 1)
  {
    if n % 2 == 1 {
      a, k := n / 2, 0;
    } else {
      a, k := HasForm(n / 2);
      k := k + 1;
    }
  }

  lemma {:induction false} AndSelf(a: nat)
    ensures BitAnd(a, a) == a
  {
    if a > 0 {
      AndSelf(a / 2);
    }
  }

  lemma OddAnd(x: nat)
    requires x % 2 == 1
    ensures BitAnd(x, x - 1) == x - 1
  {
    var a := x / 2;
    AndSelf(a);
    assert (x - 1) / 2 == a && (x - 1) % 2 == 0;
  }

  lemma EvenAnd(m: nat)
    requires m > 0
    ensures BitAnd(2 * m, 2 * m - 1) == 2 * BitAnd(m, m - 1)
  {
    assert 2 * m / 2 == m && (2 * m - 1) / 2 == m - 1;
  }

  /** The value of the lowest one bit. */
  function LowestOne(n: nat): nat
    requires n > 0
  {
    if n % 2 == 1 then 1 else 2 * LowestOne(n / 2)
  }

  /** The lowest one bit is turned off, and nothing else. */
  lemma {:induction false} ClearsLowestOne(n: nat)
    requires n > 0
    ensures InvertLowestOne(n) == n - LowestOne(n)
  {
    if n % 2 == 1 {
      OddAnd(n);
    } else {
      EvenAnd(n / 2);
      ClearsLowestOne(n / 2);
    }
  }

  lemma {:induction false} LowestOneIs(n: nat, a: nat, k: nat)
    requires n > 0 && Form(n, a, k)
    ensures LowestOne(n) == ShiftLeft(1, k)
    decreases k
  {
    if k > 0 {
      assert n / 2 == ShiftLeft(2 * a + 1, k - 1);
      LowestOneIs(n / 2, a, k - 1);
    }
  }

  /** From an even height the lowest one is turned off. */
  lemma SkipFromEven(h: nat, a: nat, k: nat)
    requires h >= 2 && h % 2 == 0 && Form(h, a, k)
    ensures GetSkipHeight(h) == h - ShiftLeft(1, k)
  {
    ClearsLowestOne(h);
    LowestOneIs(h, a, k);
  }

  /** From an odd height the lowest two ones above the last bit are, if there are two. */
  lemma SkipFromOdd(h: nat, a: nat, k: nat, rest: nat, b: nat, l: nat)
    requires h >= 3 && h % 2 == 1 && Form(h - 1, a, k) && h - 1 == rest + ShiftLeft(1, k) && (rest > 0 ==> Form(rest, b, l))
    ensures GetSkipHeight(h) == if rest == 0 then 1 else h - ShiftLeft(1, k) - ShiftLeft(1, l)
  {
    ClearsLowestOne(h - 1);
    LowestOneIs(h - 1, a, k);
    if rest > 0 {
      ClearsLowestOne(rest);
      LowestOneIs(rest, b, l);
    }
  }
}

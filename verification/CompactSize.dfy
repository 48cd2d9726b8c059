/** Variable-length sizes (src/serialize.h). */
module CompactSize {
  import opened Wrappers
  import opened Digits
  import opened Bits
  import opened BitStream
  import Limbs

  const MAX_SIZE := 0x0200_0000

  function Little(x: nat, n: nat): (s: seq<nat>)
    ensures |s| == n && IsBytes(s)
  {
    if n == 0 then [] else [x % 256] + Little(x / 256, n - 1)
  }

  function LittleValue(s: seq<nat>): nat { if s == [] then 0 else s[0] + 256 * LittleValue(s[1..]) }

  lemma {:induction false} LittleBack(x: nat, n: nat)
    requires x < Pow(256, n)
    ensures LittleValue(Little(x, n)) == x
  {
    if n > 0 {
      LittleBack(x / 256, n - 1);
    }
  }

  lemma {:induction false} ValueBack(s: seq<nat>)
    requires IsBytes(s)
    ensures Little(LittleValue(s), |s|) == s && LittleValue(s) < Pow(256, |s|)
  {
    if s != [] {
      ValueBack(s[1..]);
    }
  }

  lemma {:induction false} LittleAt(x: nat, n: nat, i: nat)
    requires i < n
    ensures Pow(256, i) > 0 && Little(x, n)[i] == x / Pow(256, i) % 256
  {
    if i > 0 {
      LittleAt(x / 256, n - 1, i - 1);
      DivTwice(x, Pow(256, i - 1));
    } else {
      assert x / 1 == x;
    }
  }

  lemma DivTwice(x: nat, p: nat)
    requires p > 0
    ensures x / 256 / p == x / (256 * p)
  {
    var q := x / 256 / p;
    var r := x / 256 % p;
    assert x == 256 * (p * q + r) + x % 256;
    Limbs.ModUnique(x, 256 * p, q, 256 * r + x % 256);
  }

  datatype Sized = Sized(size: nat, rest: seq<nat>)

  /** How many bytes follow the first one, and what they must at least hold. */
  function Width(first: nat): nat { if first < 253 then 0 else if first == 253 then 2 else if first == 254 then 4 else 8 }

  function Least(first: nat): nat { if first < 253 then 0 else if first == 253 then 253 else if first == 254 then 0x1_0000 else 0x1_0000_0000 }

  function First(n: nat): nat { if n < 253 then n else if n <= 0xFFFF then 253 else if n <= 0xFFFF_FFFF then 254 else 255 }

  function WriteCompactSize(n: nat): seq<nat> { [First(n)] + Little(n, Width(First(n))) }

  /** Only the shortest form of a size is read, and only up to the limit. */
  function ReadCompactSize(s: seq<nat>): Option<Sized> {
    if s == [] then None
    else
      var w := Width(s[0]);
      if 1 + w > |s| then None
      else
        var n := if s[0] < 253 then s[0] else LittleValue(s[1..1 + w]);
        if n < Least(s[0]) || n > MAX_SIZE then None else Some(Sized(n, s[1 + w..]))
  }

  lemma Widths()
    ensures Pow(256, 0) == 1 && Pow(256, 2) == 0x1_0000 && Pow(256, 4) == 0x1_0000_0000 && Pow(256, 8) == WORD
  {
  }

  lemma FirstFits(n: nat)
    requires n < WORD
    ensures First(n) < 256 && Least(First(n)) <= n && (n >= 253 ==> n < Pow(256, Width(First(n))))
  {
    Widths();
  }

  /** The bytes of a size: itself below 253, else a marker and two, four or eight bytes, the lowest first. */
  lemma SizeBytes(n: nat)
    requires n < WORD
    ensures n < 253 ==> WriteCompactSize(n) == [n]
    ensures 253 <= n <= 0xFFFF ==> |WriteCompactSize(n)| == 3 && WriteCompactSize(n)[0] == 253
    ensures 0xFFFF < n <= 0xFFFF_FFFF ==> |WriteCompactSize(n)| == 5 && WriteCompactSize(n)[0] == 254
    ensures 0xFFFF_FFFF < n ==> |WriteCompactSize(n)| == 9 && WriteCompactSize(n)[0] == 255
    ensures forall i :: 1 <= i < |WriteCompactSize(n)| ==> Pow(256, i - 1) > 0 && WriteCompactSize(n)[i] == n / Pow(256, i - 1) % 256
  {
    forall i | 1 <= i < |WriteCompactSize(n)| ensures Pow(256, i - 1) > 0 && WriteCompactSize(n)[i] == n / Pow(256, i - 1) % 256 {
      LittleAt(n, Width(First(n)), i - 1);
    }
  }

  /** What was written is read back exactly when it is within the limit. */
  lemma SizeRoundTrip(n: nat, rest: seq<nat>)
    requires n < WORD
    ensures ReadCompactSize(WriteCompactSize(n) + rest) == if n <= MAX_SIZE then Some(Sized(n, rest)) else None
  {
    var w := Width(First(n));
    var s := WriteCompactSize(n) + rest;
    FirstFits(n);
    assert s[1..1 + w] == Little(n, w) && s[1 + w..] == rest;
    if n >= 253 {
      LittleBack(n, w);
    }
  }

  /** Nothing else reads as n. */
  lemma SizeCanonical(s: seq<nat>)
    requires IsBytes(s) && ReadCompactSize(s).Some?
    ensures var found := ReadCompactSize(s).value; s == WriteCompactSize(found.size) + found.rest
  {
    var w := Width(s[0]);
    var body := s[1..1 + w];
    ValueBack(body);
    Widths();
    assert s == [s[0]] + body + s[1 + w..];
  }
}

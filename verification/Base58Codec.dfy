/** Base 58 encoding and decoding of byte strings (src/base58.cpp). */
module Base58Codec {
  import Limbs
  import opened Digits
  import opened Base58

  // ---------- The alphabet ----------

  /** pszBase58. */
  function CharAt(n: nat): char {
    match n
    case 0 => '1' case 1 => '2' case 2 => '3' case 3 => '4' case 4 => '5' case 5 => '6'
    case 6 => '7' case 7 => '8' case 8 => '9' case 9 => 'A' case 10 => 'B' case 11 => 'C'
    case 12 => 'D' case 13 => 'E' case 14 => 'F' case 15 => 'G' case 16 => 'H' case 17 => 'J'
    case 18 => 'K' case 19 => 'L' case 20 => 'M' case 21 => 'N' case 22 => 'P' case 23 => 'Q'
    case 24 => 'R' case 25 => 'S' case 26 => 'T' case 27 => 'U' case 28 => 'V' case 29 => 'W'
    case 30 => 'X' case 31 => 'Y' case 32 => 'Z' case 33 => 'a' case 34 => 'b' case 35 => 'c'
    case 36 => 'd' case 37 => 'e' case 38 => 'f' case 39 => 'g' case 40 => 'h' case 41 => 'i'
    case 42 => 'j' case 43 => 'k' case 44 => 'm' case 45 => 'n' case 46 => 'o' case 47 => 'p'
    case 48 => 'q' case 49 => 'r' case 50 => 's' case 51 => 't' case 52 => 'u' case 53 => 'v'
    case 54 => 'w' case 55 => 'x' case 56 => 'y'
    case _ => 'z'
  }

  /** mapBase58. */
  function Rev(c: char): (n: int)
    ensures -1 <= n < 58
  {
    match c
    case '1' => 0 case '2' => 1 case '3' => 2 case '4' => 3 case '5' => 4 case '6' => 5
    case '7' => 6 case '8' => 7 case '9' => 8 case 'A' => 9 case 'B' => 10 case 'C' => 11
    case 'D' => 12 case 'E' => 13 case 'F' => 14 case 'G' => 15 case 'H' => 16 case 'J' => 17
    case 'K' => 18 case 'L' => 19 case 'M' => 20 case 'N' => 21 case 'P' => 22 case 'Q' => 23
    case 'R' => 24 case 'S' => 25 case 'T' => 26 case 'U' => 27 case 'V' => 28 case 'W' => 29
    case 'X' => 30 case 'Y' => 31 case 'Z' => 32 case 'a' => 33 case 'b' => 34 case 'c' => 35
    case 'd' => 36 case 'e' => 37 case 'f' => 38 case 'g' => 39 case 'h' => 40 case 'i' => 41
    case 'j' => 42 case 'k' => 43 case 'm' => 44 case 'n' => 45 case 'o' => 46 case 'p' => 47
    case 'q' => 48 case 'r' => 49 case 's' => 50 case 't' => 51 case 'u' => 52 case 'v' => 53
    case 'w' => 54 case 'x' => 55 case 'y' => 56 case 'z' => 57
    case _ => -1
  }

  predicate IsSpace(c: char) { c == ' ' || 9 <= c as int <= 13 }

  lemma RevOfChar(n: nat)
    requires n < 58
    ensures Rev(CharAt(n)) == n && !IsSpace(CharAt(n)) && CharAt(n) as int != 0 && (CharAt(n) == '1' <==> n == 0)
  {
  }

  lemma CharOfRev(c: char)
    requires Rev(c) != -1
    ensures CharAt(Rev(c)) == c && (c == '1' <==> Rev(c) == 0) && !IsSpace(c)
  {
  }

  /** The alphabet in order. */
  lemma AlphabetIs(n: nat)
    requires n < 58
    ensures CharAt(n) == if n < 33 then "123456789ABCDEFGHJKLMNPQRSTUVWXYZ"[n] else "abcdefghijkmnopqrstuvwxyz"[n - 33]
  {
  }

  /** Each character of the alphabet has its place as number, and the six spaces have none. */
  lemma RevIs(c: char, n: nat)
    requires n < 58
    ensures Rev(c) == n <==> c == CharAt(n)
    ensures IsSpace(c) <==> c in {' ', '\t', '\n', 11 as char, 12 as char, '\r'}
  {
    if c == CharAt(n) {
      RevOfChar(n);
    } else if Rev(c) != -1 {
      CharOfRev(c);
    }
  }

  datatype Alphabet = Alphabet(digit: nat -> char, rev: char -> int)

  const BITCOIN := Alphabet(CharAt, Rev)

  ghost predicate CharOk(a: Alphabet, n: nat) {
    n < 58 ==> a.rev(a.digit(n)) == n && !IsSpace(a.digit(n)) && a.digit(n) as int != 0 && (a.digit(n) == '1' <==> n == 0)
  }

  ghost predicate RevOk(a: Alphabet, c: char) {
    a.rev(c) != -1 ==> 0 <= a.rev(c) < 58 && a.digit(a.rev(c)) == c && (c == '1' <==> a.rev(c) == 0) && !IsSpace(c)
  }

  /** 58 characters, '1' for zero, none of them a space. */
  ghost predicate GoodAlphabet(a: Alphabet) {
    && (forall n: nat {:trigger CharOk(a, n)} :: CharOk(a, n))
    && (forall c {:trigger RevOk(a, c)} :: RevOk(a, c))
  }

  lemma BitcoinAlphabet()
    ensures GoodAlphabet(BITCOIN)
  {
    forall n: nat ensures CharOk(BITCOIN, n) {
      if n < 58 {
        RevOfChar(n);
      }
    }
    forall c ensures RevOk(BITCOIN, c) {
      if Rev(c) != -1 {
        CharOfRev(c);
      }
    }
  }

  // ---------- Big-endian numbers ----------

  function Reversed<T>(s: seq<T>): (r: seq<T>)
    ensures |r| == |s|
  {
    seq(|s|, i requires 0 <= i < |s| => s[|s| - 1 - i])
  }

  lemma ReversedTwice<T>(s: seq<T>)
    ensures Reversed(Reversed(s)) == s
  {
  }

  /** Value of digits, most significant first. */
  function Big(s: seq<nat>, b: nat): nat { if s == [] then 0 else b * Big(s[..|s| - 1], b) + s[|s| - 1] }

  predicate Below(s: seq<nat>, b: nat) { forall i :: 0 <= i < |s| ==> s[i] < b }

  lemma {:induction false} BigIsVal(s: seq<nat>, b: nat)
    ensures Big(s, b) == Val(Reversed(s), b)
  {
    if s != [] {
      var k := |s| - 1;
      BigIsVal(s[..k], b);
      assert Reversed(s)[1..] == Reversed(s[..k]);
    }
  }

  lemma {:induction false} BigBound(s: seq<nat>, b: nat)
    requires b > 0 && Below(s, b)
    ensures Big(s, b) < Pow(b, |s|)
  {
    if s != [] {
      var k := |s| - 1;
      BigBound(s[..k], b);
      NextBound(b, Big(s[..k], b), Pow(b, k), s[k]);
    }
  }

  lemma NextBound(b: nat, v: nat, p: nat, x: nat)
    requires v < p && x < b
    ensures b * v + x < b * p
  {
    Limbs.MulMono(b, v + 1, b, p);
    assert b * (v + 1) == b * v + b;
  }

  lemma BigNext(s: seq<nat>, k: nat, b: nat)
    requires k < |s|
    ensures Big(s[..k + 1], b) == b * Big(s[..k], b) + s[k]
  {
    assert s[..k + 1][..k] == s[..k];
  }

  /** Digits without a leading zero are the canonical digits of their value. */
  lemma CanonOfBig(s: seq<nat>, b: nat)
    requires b >= 2 && Below(s, b) && (s != [] ==> s[0] != 0)
    ensures Canon(Big(s, b), b) == Reversed(s)
  {
    BigIsVal(s, b);
    CanonOfVal(Reversed(s), b);
  }

  /** The canonical digits, most significant first, have no leading zero and the value v. */
  lemma BigOfCanon(v: nat, b: nat)
    requires b >= 2
    ensures var s := Reversed(Canon(v, b)); Below(s, b) && (s != [] ==> s[0] != 0) && Big(s, b) == v
  {
    CanonProper(v, b);
    BigIsVal(Reversed(Canon(v, b)), b);
    ReversedTwice(Canon(v, b));
    ValOfCanon(v, b);
  }

  // ---------- Encoding ----------

  /** How many elements at the front of s satisfy p. */
  function Leading<T>(s: seq<T>, p: T -> bool): (n: nat)
    ensures n <= |s| && (forall i :: 0 <= i < n ==> p(s[i])) && (n < |s| ==> !p(s[n]))
  {
    if s != [] && p(s[0]) then 1 + Leading(s[1..], p) else 0
  }

  predicate IsZero(n: nat) { n == 0 }

  function Repeat<T>(x: T, n: nat): seq<T> { seq(n, _ => x) }

  function Text(a: Alphabet, d: seq<nat>): string { seq(|d|, i requires 0 <= i < |d| => a.digit(d[i])) }

  /** A '1' for every leading zero byte, then the number in base 58. */
  function Encoded(a: Alphabet, input: seq<nat>): string {
    var z := Leading(input, IsZero);
    Repeat('1', z) + Text(a, Reversed(Canon(Big(input[z..], 256), 58)))
  }

  /** The big-endian digits at the end of the buffer. */
  lemma HeldDigits(s: seq<nat>, d: seq<nat>)
    requires Holds(s, d)
    ensures s[|s| - |d|..] == Reversed(d)
  {
    forall i | 0 <= i < |d| ensures s[|s| - |d| + i] == Reversed(d)[i] { assert HeldAt(s, d, |d| - 1 - i); }
  }

  /** One more digit of v enters the buffer. */
  method Append(d: array<nat>, length: nat, x: nat, from: nat, to: nat, ghost v: seq<nat>, ghost k: nat) returns (newLength: nat)
    requires from >= 1 && to >= 2 && Below(v, from) && k < |v| && x == v[k] && Pow(from, |v|) <= Pow(to, d.Length)
    requires Holds(d[..], Canon(Big(v[..k], from), to)) && length == |Canon(Big(v[..k], from), to)|
    modifies d
    ensures Holds(d[..], Canon(Big(v[..k + 1], from), to)) && newLength == |Canon(Big(v[..k + 1], from), to)|
  {
    BigNext(v, k, from);
    BigBound(v[..k + 1], from);
    PowExponent(from, k + 1, |v|);
    newLength := MulAdd(d, length, x, from, to, Big(v[..k], from), Big(v[..k + 1], from));
  }

  method Convert(input: seq<nat>, from: nat, to: nat, size: nat) returns (digits: seq<nat>)
    requires from >= 1 && to >= 2 && Below(input, from) && Pow(from, |input|) <= Pow(to, size)
    ensures digits == Reversed(Canon(Big(input, from), to))
  {
    var d := new nat[size](_ => 0);
    var length := 0;
    forall k ensures HeldAt(d[..], [], k) {}
    for k := 0 to |input|
      invariant Holds(d[..], Canon(Big(input[..k], from), to)) && length == |Canon(Big(input[..k], from), to)|
    {
      length := Append(d, length, input[k], from, to, input, k);
    }
    assert input[..|input|] == input;
    HeldDigits(d[..], Canon(Big(input, from), to));
    digits := d[d.Length - length..];
  }

  method Skip<T>(s: seq<T>, p: T -> bool) returns (n: nat)
    ensures n == Leading(s, p)
  {
    n := 0;
    while n < |s| && p(s[n])
      invariant n <= |s| && Leading(s, p) == n + Leading(s[n..], p)
    {
      assert s[n..][1..] == s[n + 1..];
      n := n + 1;
    }
  }

  method Translate(a: Alphabet, digits: seq<nat>, prefix: string) returns (r: string)
    ensures r == prefix + Text(a, digits)
  {
    r := prefix;
    for i := 0 to |digits|
      invariant r == prefix + Text(a, digits[..i])
    {
      assert Text(a, digits[..i + 1]) == Text(a, digits[..i]) + [a.digit(digits[i])];
      r := r + [a.digit(digits[i])];
    }
    assert digits[..|digits|] == digits;
  }

  method EncodeBase58(a: Alphabet, input: seq<nat>) returns (r: string)
    requires Below(input, 256)
    ensures r == Encoded(a, input)
  {
    var zeroes := Skip(input, IsZero);
    var rest := input[zeroes..];
    EncodeSize(|rest|);
    var digits := Convert(rest, 256, 58, |rest| * 138 / 100 + 1);
    BigOfCanon(Big(rest, 256), 58);
    var skipped := Skip(digits, IsZero);
    assert digits[skipped..] == digits;
    r := Translate(a, digits[skipped..], Repeat('1', zeroes));
  }
}

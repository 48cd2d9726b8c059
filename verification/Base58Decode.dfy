/** Reading base 58 strings, and the round trips (src/base58.cpp). */
module Base58Decode {
  import opened Wrappers
  import Limbs
  import opened Digits
  import opened Base58
  import opened Base58Codec

  predicate IsOne(c: char) { c == '1' }

  predicate NotSpace(c: char) { !IsSpace(c) }

  predicate AllSpaces(s: string) { forall i :: 0 <= i < |s| ==> IsSpace(s[i]) }

  predicate NoNul(s: string) { forall i :: 0 <= i < |s| ==> s[i] as int != 0 }

  predicate InAlphabet(a: Alphabet, s: string) { forall i :: 0 <= i < |s| ==> a.rev(s[i]) != -1 }

  function Value(a: Alphabet, c: char): nat { if a.rev(c) < 0 then 0 else a.rev(c) }

  function Values(a: Alphabet, s: string): (d: seq<nat>)
    ensures |d| == |s|
  {
    seq(|s|, i requires 0 <= i < |s| => Value(a, s[i]))
  }

  function Bytes(a: Alphabet, zeroes: nat, body: string): seq<nat> {
    Repeat(0, zeroes) + Reversed(Canon(Big(Values(a, body), 58), 256))
  }

  /** Spaces, ones, more characters up to a space, and what follows. */
  datatype Layout = Layout(spaces: nat, zeroes: nat, body: string, rest: string)

  function LayoutOf(str: string): (l: Layout)
    ensures l.spaces + l.zeroes + |l.body| + |l.rest| == |str|
  {
    var spaces := Leading(str, IsSpace);
    var s := str[spaces..];
    var zeroes := Leading(s, IsOne);
    var t := s[zeroes..];
    var n := Leading(t, NotSpace);
    Layout(spaces, zeroes, t[..n], t[n..])
  }

  function DecodedLayout(a: Alphabet, l: Layout, max: int): Option<seq<nat>> {
    var bytes := Bytes(a, l.zeroes, l.body);
    if InAlphabet(a, l.body) && AllSpaces(l.rest) && (|bytes| <= max || bytes == []) then Some(bytes) else None
  }

  /** The bytes that the ones and the body stand for, at most max of them. */
  function Decoded(a: Alphabet, str: string, max: int): Option<seq<nat>> {
    if NoNul(str) then DecodedLayout(a, LayoutOf(str), max) else None
  }

  // ---------- The decoder ----------

  lemma ValuesBelow(a: Alphabet, s: string)
    requires GoodAlphabet(a)
    ensures Below(Values(a, s), 58)
  {
    forall i | 0 <= i < |s| ensures Values(a, s)[i] < 58 { assert RevOk(a, s[i]); }
  }

  lemma {:induction false} BigGrows(s: seq<nat>, k: nat, b: nat)
    requires k <= |s| && b >= 1
    ensures Big(s[..k], b) <= Big(s, b)
  {
    var m := |s| - 1;
    if k == |s| {
      assert s[..k] == s;
    } else {
      assert s[..m][..k] == s[..k];
      BigGrows(s[..m], k, b);
      Limbs.MulMono(1, Big(s[..m], b), b, Big(s[..m], b));
    }
  }

  /** Whether the size limit is kept once the first k characters are read. */
  predicate Fits(v: seq<nat>, zeroes: nat, max: int, k: nat)
    requires k <= |v|
  {
    k > 0 ==> zeroes + |Canon(Big(v[..k], 58), 256)| <= max
  }

  lemma FitsEarlier(v: seq<nat>, zeroes: nat, max: int, k: nat)
    requires k <= |v|
    ensures Fits(v, zeroes, max, |v|) ==> Fits(v, zeroes, max, k)
  {
    assert v[..|v|] == v;
    BigGrows(v, k, 58);
    CanonGrows(Big(v[..k], 58), Big(v, 58), 256);
  }

  method ReadDigits(a: Alphabet, body: string, size: nat, zeroes: nat, max: int) returns (ok: bool, digits: seq<nat>)
    requires GoodAlphabet(a) && Pow(58, |body|) <= Pow(256, size)
    ensures ok <==> InAlphabet(a, body) && Fits(Values(a, body), zeroes, max, |body|)
    ensures ok ==> digits == Reversed(Canon(Big(Values(a, body), 58), 256))
  {
    ghost var v := Values(a, body);
    ValuesBelow(a, body);
    var d := new nat[size](_ => 0);
    var length := 0;
    forall k ensures HeldAt(d[..], [], k) {}
    for k := 0 to |body|
      invariant Holds(d[..], Canon(Big(v[..k], 58), 256)) && length == |Canon(Big(v[..k], 58), 256)|
      invariant (forall i :: 0 <= i < k ==> a.rev(body[i]) != -1) && Fits(v, zeroes, max, k)
    {
      var carry := a.rev(body[k]);
      if carry == -1 {
        return false, [];
      }
      assert RevOk(a, body[k]);
      length := Append(d, length, carry, 58, 256, v, k);
      if length + zeroes > max {
        FitsEarlier(v, zeroes, max, k + 1);
        return false, [];
      }
    }
    assert v[..|v|] == v;
    HeldDigits(d[..], Canon(Big(v, 58), 256));
    ok, digits := true, d[d.Length - length..];
  }

  method SkipOnes(s: string, max: int) returns (ok: bool, zeroes: nat)
    ensures ok <==> Leading(s, IsOne) == 0 || Leading(s, IsOne) <= max
    ensures ok ==> zeroes == Leading(s, IsOne)
  {
    zeroes := 0;
    while zeroes < |s| && s[zeroes] == '1'
      invariant zeroes <= |s| && Leading(s, IsOne) == zeroes + Leading(s[zeroes..], IsOne)
      invariant zeroes == 0 || zeroes <= max
    {
      assert s[zeroes..][1..] == s[zeroes + 1..];
      zeroes := zeroes + 1;
      if zeroes > max {
        return false, zeroes;
      }
    }
    ok := true;
  }

  /** After the ones, any further character makes the number positive. */
  lemma BodyCounts(a: Alphabet, body: string)
    requires GoodAlphabet(a) && InAlphabet(a, body) && (body != [] ==> body[0] != '1')
    ensures Canon(Big(Values(a, body), 58), 256) != [] <==> body != []
  {
    var v := Values(a, body);
    if body != [] {
      assert RevOk(a, body[0]);
      BigGrows(v, 1, 58);
      BigNext(v, 0, 58);
    }
  }

  /** The two limits that are checked on the way are one limit on the result. */
  lemma LimitIs(a: Alphabet, zeroes: nat, body: string, max: int)
    requires GoodAlphabet(a) && InAlphabet(a, body) && (body != [] ==> body[0] != '1')
    ensures |Bytes(a, zeroes, body)| <= max || Bytes(a, zeroes, body) == [] <==> (zeroes == 0 || zeroes <= max) && Fits(Values(a, body), zeroes, max, |body|)
  {
    BodyCounts(a, body);
    assert Values(a, body)[..|body|] == Values(a, body);
  }

  /** The text after the spaces and the ones. */
  method DecodeRest(a: Alphabet, t: string, zeroes: nat, max: int) returns (r: Option<seq<nat>>)
    requires GoodAlphabet(a) && (t != [] ==> t[0] != '1') && (zeroes == 0 || zeroes <= max)
    ensures var n := Leading(t, NotSpace); r == DecodedLayout(a, Layout(0, zeroes, t[..n], t[n..]), max)
  {
    var n := Skip(t, NotSpace);
    DecodeSize(|t|);
    PowExponent(58, n, |t|);
    var ok, digits := ReadDigits(a, t[..n], |t| * 733 / 1000 + 1, zeroes, max);
    if InAlphabet(a, t[..n]) {
      LimitIs(a, zeroes, t[..n], max);
    }
    if !ok {
      return None;
    }
    var trailing := Skip(t[n..], IsSpace);
    if n + trailing != |t| {
      return None;
    }
    r := Some(Repeat(0, zeroes) + digits);
  }

  lemma TooManyOnes(a: Alphabet, l: Layout, max: int)
    requires l.zeroes > 0 && l.zeroes > max
    ensures DecodedLayout(a, l, max) == None
  {
  }

  method DecodeBase58(a: Alphabet, str: string, max: int) returns (r: Option<seq<nat>>)
    requires GoodAlphabet(a)
    ensures r == Decoded(a, str, max)
  {
    if !NoNul(str) {
      return None;
    }
    var spaces := Skip(str, IsSpace);
    var few, zeroes := SkipOnes(str[spaces..], max);
    if !few {
      TooManyOnes(a, LayoutOf(str), max);
      return None;
    }
    r := DecodeRest(a, str[spaces..][zeroes..], zeroes, max);
  }

  // ---------- Round trips ----------

  lemma {:induction false} LeadingIs<T>(s: seq<T>, p: T -> bool, n: nat)
    requires n <= |s| && (forall i :: 0 <= i < n ==> p(s[i])) && (n < |s| ==> !p(s[n]))
    ensures Leading(s, p) == n
  {
    if n > 0 {
      LeadingIs(s[1..], p, n - 1);
    }
  }

  lemma TextIsInAlphabet(a: Alphabet, d: seq<nat>)
    requires GoodAlphabet(a) && Below(d, 58)
    ensures var s := Text(a, d); InAlphabet(a, s) && NoNul(s) && Values(a, s) == d
    ensures forall i :: 0 <= i < |d| ==> !IsSpace(Text(a, d)[i]) && (Text(a, d)[i] == '1' <==> d[i] == 0)
  {
    forall i | 0 <= i < |d| ensures var c := Text(a, d)[i]; a.rev(c) == d[i] && !IsSpace(c) && c as int != 0 && (c == '1' <==> d[i] == 0) {
      assert CharOk(a, d[i]);
    }
  }

  lemma ValuesBack(a: Alphabet, s: string)
    requires GoodAlphabet(a) && InAlphabet(a, s)
    ensures Text(a, Values(a, s)) == s
  {
    forall i | 0 <= i < |s| ensures Text(a, Values(a, s))[i] == s[i] { assert RevOk(a, s[i]); }
  }

  lemma LayoutIs(left: string, z: nat, body: string, right: string)
    requires AllSpaces(left) && AllSpaces(right)
    requires forall i :: 0 <= i < |body| ==> !IsSpace(body[i])
    requires body != [] ==> body[0] != '1'
    ensures LayoutOf(left + (Repeat('1', z) + body) + right) == if z == 0 && body == [] then Layout(|left| + |right|, 0, [], []) else Layout(|left|, z, body, right)
  {
    var str := left + (Repeat('1', z) + body) + right;
    if z == 0 && body == [] {
      LeadingIs(str, IsSpace, |str|);
    } else {
      assert str == left + (Repeat('1', z) + body + right);
      SpacesThen(left, Repeat('1', z) + body + right);
      OnesThen(z, body, right);
      BodyThen(body, right);
    }
  }

  lemma SpacesThen(left: string, s: string)
    requires AllSpaces(left) && s != [] && !IsSpace(s[0])
    ensures Leading(left + s, IsSpace) == |left| && (left + s)[|left|..] == s
  {
    LeadingIs(left + s, IsSpace, |left|);
  }

  lemma BodyThen(body: string, right: string)
    requires AllSpaces(right) && forall i :: 0 <= i < |body| ==> !IsSpace(body[i])
    ensures var t := body + right; Leading(t, NotSpace) == |body| && t[..|body|] == body && t[|body|..] == right
  {
    LeadingIs(body + right, NotSpace, |body|);
  }

  lemma OnesThen(z: nat, body: string, right: string)
    requires body != [] ==> body[0] != '1'
    requires AllSpaces(right)
    ensures var s := Repeat('1', z) + body + right; Leading(s, IsOne) == z && s[z..] == body + right
  {
    LeadingIs(Repeat('1', z) + body + right, IsOne, z);
  }

  lemma OnesFirst(s: string)
    ensures s == Repeat('1', Leading(s, IsOne)) + s[Leading(s, IsOne)..]
  {
  }

  lemma Join<T>(left: seq<T>, ones: seq<T>, body: seq<T>, rest: seq<T>)
    ensures left + (ones + (body + rest)) == left + (ones + body) + rest
  {
  }

  lemma TakeDrop<T>(s: seq<T>, n: nat)
    requires n <= |s|
    ensures s[..n] + s[n..] == s
  {
  }

  lemma LayoutWhole(str: string)
    ensures var l := LayoutOf(str);
      && AllSpaces(str[..l.spaces]) && str == str[..l.spaces] + (Repeat('1', l.zeroes) + l.body) + l.rest
      && (l.body != [] ==> l.body[0] != '1')
  {
    var spaces := Leading(str, IsSpace);
    var s := str[spaces..];
    var zeroes := Leading(s, IsOne);
    var t := s[zeroes..];
    var n := Leading(t, NotSpace);
    TakeDrop(str, spaces);
    OnesFirst(s);
    TakeDrop(t, n);
    Join(str[..spaces], Repeat('1', zeroes), t[..n], t[n..]);
  }

  lemma NulOf(left: string, mid: string, right: string)
    requires AllSpaces(left) && AllSpaces(right) && NoNul(mid)
    ensures NoNul(left + mid + right)
  {
  }

  /** Every byte string comes back, whatever spaces surround it, exactly when it is within the limit. */
  lemma DecodeEncode(input: seq<nat>, left: string, right: string, max: int)
    requires Below(input, 256) && AllSpaces(left) && AllSpaces(right)
    ensures Decoded(BITCOIN, left + Encoded(BITCOIN, input) + right, max) == if input == [] || |input| <= max then Some(input) else None
  {
    BitcoinAlphabet();
    DecodeEncodeIn(BITCOIN, input, left, right, max);
  }

  lemma DecodeEncodeIn(a: Alphabet, input: seq<nat>, left: string, right: string, max: int)
    requires GoodAlphabet(a) && Below(input, 256) && AllSpaces(left) && AllSpaces(right)
    ensures Decoded(a, left + Encoded(a, input) + right, max) == if input == [] || |input| <= max then Some(input) else None
  {
    var z := Leading(input, IsZero);
    var body := Text(a, Reversed(Canon(Big(input[z..], 256), 58)));
    NumberText(a, Big(input[z..], 256));
    BytesOfDigits(a, input);
    DecodeText(a, z, body, left, right, max);
  }

  lemma NumberText(a: Alphabet, v: nat)
    requires GoodAlphabet(a)
    ensures var body := Text(a, Reversed(Canon(v, 58)));
      && InAlphabet(a, body) && NoNul(body) && (forall i :: 0 <= i < |body| ==> !IsSpace(body[i])) && (body != [] ==> body[0] != '1')
  {
    BigOfCanon(v, 58);
    TextIsInAlphabet(a, Reversed(Canon(v, 58)));
  }

  lemma DecodeText(a: Alphabet, z: nat, body: string, left: string, right: string, max: int)
    requires AllSpaces(left) && AllSpaces(right) && InAlphabet(a, body) && NoNul(body)
    requires forall i :: 0 <= i < |body| ==> !IsSpace(body[i])
    requires body != [] ==> body[0] != '1'
    ensures var x := Bytes(a, z, body);
      Decoded(a, left + (Repeat('1', z) + body) + right, max) == if x == [] || |x| <= max then Some(x) else None
  {
    LayoutIs(left, z, body, right);
    NulOf(left, Repeat('1', z) + body, right);
  }

  lemma BytesOfDigits(a: Alphabet, input: seq<nat>)
    requires GoodAlphabet(a) && Below(input, 256)
    ensures var z := Leading(input, IsZero); Bytes(a, z, Text(a, Reversed(Canon(Big(input[z..], 256), 58)))) == input
  {
    var z := Leading(input, IsZero);
    DigitsBack(a, input[z..]);
    ZerosFirst(input);
  }

  lemma ZerosFirst(input: seq<nat>)
    ensures Repeat(0, Leading(input, IsZero)) + input[Leading(input, IsZero)..] == input
  {
  }

  lemma DigitsBack(a: Alphabet, rest: seq<nat>)
    requires GoodAlphabet(a) && Below(rest, 256) && (rest != [] ==> rest[0] != 0)
    ensures Reversed(Canon(Big(Values(a, Text(a, Reversed(Canon(Big(rest, 256), 58)))), 58), 256)) == rest
  {
    var v := Big(rest, 256);
    BigOfCanon(v, 58);
    TextIsInAlphabet(a, Reversed(Canon(v, 58)));
    CanonOfBig(rest, 256);
    ReversedTwice(rest);
  }

  /** What is read is the encoding of the bytes, between spaces: no two texts but for spaces mean the same bytes. */
  lemma EncodeDecode(str: string, max: int) returns (left: string, right: string)
    requires Decoded(BITCOIN, str, max).Some?
    ensures var x := Decoded(BITCOIN, str, max).value;
      && Below(x, 256) && (x == [] || |x| <= max)
      && AllSpaces(left) && AllSpaces(right) && str == left + Encoded(BITCOIN, x) + right
  {
    BitcoinAlphabet();
    left, right := EncodeDecodeIn(BITCOIN, str, max);
  }

  lemma EncodeDecodeIn(a: Alphabet, str: string, max: int) returns (left: string, right: string)
    requires GoodAlphabet(a) && Decoded(a, str, max).Some?
    ensures var x := Decoded(a, str, max).value;
      && Below(x, 256) && (x == [] || |x| <= max)
      && AllSpaces(left) && AllSpaces(right) && str == left + Encoded(a, x) + right
  {
    var l := LayoutOf(str);
    left, right := str[..l.spaces], l.rest;
    LayoutWhole(str);
    BytesBack(a, l.zeroes, l.body);
  }

  lemma BytesBack(a: Alphabet, z: nat, body: string)
    requires GoodAlphabet(a) && InAlphabet(a, body) && (body != [] ==> body[0] != '1')
    ensures Below(Bytes(a, z, body), 256) && Encoded(a, Bytes(a, z, body)) == Repeat('1', z) + body
  {
    var v := Values(a, body);
    ValuesBelow(a, body);
    ValuesBack(a, body);
    if body != [] {
      assert RevOk(a, body[0]);
    }
    CanonOfBig(v, 58);
    BigOfCanon(Big(v, 58), 256);
    var x := Bytes(a, z, body);
    LeadingIs(x, IsZero, z);
    assert x[z..] == Reversed(Canon(Big(v, 58), 256));
    ReversedTwice(v);
  }
}

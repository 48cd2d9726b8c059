/** Bech32 and Bech32m strings (src/bech32.cpp; BIP 173, section "Bech32", and BIP 350,
    section "Bech32m"): encoding, decoding and their round trips. */
module Bech32 {
  import opened Bech32Field
  import opened Bech32Poly

  datatype Encoding = BECH32 | BECH32M

  datatype DecodeResult = Invalid | Decoded(encoding: Encoding, hrp: string, data: seq<F32>)

  const CHECKSUM_SIZE := 6
  const SEPARATOR := '1'

  // ---------- Characters ----------

  /** CHARSET. */
  function CharAt(n: nat): char {
    match n
    case 0 => 'q' case 1 => 'p' case 2 => 'z' case 3 => 'r'
    case 4 => 'y' case 5 => '9' case 6 => 'x' case 7 => '8'
    case 8 => 'g' case 9 => 'f' case 10 => '2' case 11 => 't'
    case 12 => 'v' case 13 => 'd' case 14 => 'w' case 15 => '0'
    case 16 => 's' case 17 => '3' case 18 => 'j' case 19 => 'n'
    case 20 => '5' case 21 => '4' case 22 => 'k' case 23 => 'h'
    case 24 => 'c' case 25 => 'e' case 26 => '6' case 27 => 'm'
    case 28 => 'u' case 29 => 'a' case 30 => '7' case _ => 'l'
  }

  /** CHARSET_REV on everything but upper-case letters. */
  function RevLower(c: char): int {
    match c
    case 'q' => 0 case 'p' => 1 case 'z' => 2 case 'r' => 3
    case 'y' => 4 case '9' => 5 case 'x' => 6 case '8' => 7
    case 'g' => 8 case 'f' => 9 case '2' => 10 case 't' => 11
    case 'v' => 12 case 'd' => 13 case 'w' => 14 case '0' => 15
    case 's' => 16 case '3' => 17 case 'j' => 18 case 'n' => 19
    case '5' => 20 case '4' => 21 case 'k' => 22 case 'h' => 23
    case 'c' => 24 case 'e' => 25 case '6' => 26 case 'm' => 27
    case 'u' => 28 case 'a' => 29 case '7' => 30 case 'l' => 31
    case _ => -1
  }

  function LowerCase(c: char): char { if 'A' <= c <= 'Z' then c - 'A' + 'a' else c }

  /** CHARSET_REV: upper- and lower-case letters share their numbers. */
  function Rev(c: char): (n: int)
    ensures -1 <= n < 32
  {
    RevLower(LowerCase(c))
  }

  lemma RevOfChar(n: nat)
    requires n < 32
    ensures RevLower(CharAt(n)) == n
  {
  }

  lemma CharOfRev(c: char)
    requires RevLower(c) != -1
    ensures CharAt(RevLower(c)) == c && 33 <= c as int <= 126 && c != SEPARATOR && !('A' <= c <= 'Z')
  {
  }

  lemma CharIsPlain(n: nat)
    requires n < 32
    ensures var c := CharAt(n); 33 <= c as int <= 126 && c != SEPARATOR && !('A' <= c <= 'Z') && LowerCase(c) == c
  {
  }

  /** The character set, in order, with either case of a letter read as its number. */
  lemma CharsetIs(c: char, n: nat)
    requires n < 32
    ensures CharAt(n) == "qpzry9x8gf2tvdw0s3jn54khce6mua7l"[n]
    ensures Rev(c) == n <==> c == CharAt(n) || ('a' <= CharAt(n) <= 'z' && c as int == CharAt(n) as int - 32)
  {
    RevOfChar(n);
    if Rev(c) == n {
      CharOfRev(LowerCase(c));
    }
  }

  predicate IsLower(c: char) { 'a' <= c <= 'z' }

  predicate IsUpper(c: char) { 'A' <= c <= 'Z' }

  predicate Printable(c: char) { 33 <= c as int <= 126 }

  datatype Case = NoCase | Lower | Upper

  /** The case of the first letter decides. */
  function CaseOf(s: string): Case {
    if s == [] then NoCase
    else if IsLower(s[0]) then Lower
    else if IsUpper(s[0]) then Upper
    else CaseOf(s[1..])
  }

  /** A character is wrong if it is not printable or a letter of the other case. */
  predicate Flagged(s: string, i: nat)
    requires i < |s|
  {
    if IsLower(s[i]) then CaseOf(s) == Upper
    else if IsUpper(s[i]) then CaseOf(s) == Lower
    else !Printable(s[i])
  }

  lemma {:induction false} CaseOfPrefix(s: string, i: nat)
    requires i <= |s|
    ensures CaseOf(s[..i]) != NoCase ==> CaseOf(s) == CaseOf(s[..i])
    ensures CaseOf(s[..i]) == NoCase && i < |s| && IsLower(s[i]) ==> CaseOf(s) == Lower
    ensures CaseOf(s[..i]) == NoCase && i < |s| && IsUpper(s[i]) ==> CaseOf(s) == Upper
  {
    if i > 0 {
      assert s[..i][1..] == s[1..][..i - 1];
      CaseOfPrefix(s[1..], i - 1);
    }
  }

  lemma CaseOfNext(s: string, i: nat)
    requires i < |s|
    ensures CaseOf(s[..i + 1]) == if CaseOf(s[..i]) != NoCase then CaseOf(s[..i])
                                  else if IsLower(s[i]) then Lower else if IsUpper(s[i]) then Upper else NoCase
  {
    assert s[..i + 1][..i] == s[..i];
    CaseOfPrefix(s[..i + 1], i);
    if CaseOf(s[..i]) == NoCase && !IsLower(s[i]) && !IsUpper(s[i]) {
      NoLetters(s[..i + 1], i);
    }
  }

  lemma {:induction false} NoLetters(s: string, i: nat)
    requires |s| == i + 1 && CaseOf(s[..i]) == NoCase && !IsLower(s[i]) && !IsUpper(s[i])
    ensures CaseOf(s) == NoCase
  {
    if i > 0 {
      assert s[..i][1..] == s[1..][..i - 1];
      NoLetters(s[1..], i - 1);
    }
  }

  method CheckCharacters(s: string) returns (ok: bool, errors: seq<nat>)
    ensures forall i :: i in errors <==> 0 <= i < |s| && Flagged(s, i)
    ensures ok <==> CharactersOk(s)
  {
    var lower, upper := false, false;
    errors := [];
    for i := 0 to |s|
      invariant lower <==> CaseOf(s[..i]) == Lower
      invariant upper <==> CaseOf(s[..i]) == Upper
      invariant forall j :: j in errors <==> 0 <= j < i && Flagged(s, j)
    {
      CaseOfPrefix(s, i);
      CaseOfNext(s, i);
      var c := s[i];
      if IsLower(c) {
        if upper {
          errors := errors + [i];
        } else {
          lower := true;
        }
      } else if IsUpper(c) {
        if lower {
          errors := errors + [i];
        } else {
          upper := true;
        }
      } else if !Printable(c) {
        errors := errors + [i];
      }
    }
    ok := errors == [];
    assert errors != [] ==> errors[0] in errors;
  }

  predicate CharactersOk(s: string) { forall i {:trigger Flagged(s, i)} :: 0 <= i < |s| ==> !Flagged(s, i) }

  lemma {:induction false} NoUpperCase(s: string)
    requires forall c :: c in s ==> !IsUpper(c)
    ensures CaseOf(s) != Upper
  {
    if s != [] {
      NoUpperCase(s[1..]);
    }
  }

  // ---------- Checksums ----------

  function EncodingConstant(e: Encoding): Residue {
    match e
    case BECH32 => START
    case BECH32M => Residue(F32(I, O, I, O, I), F32(I, I, I, O, O), F32(I, O, O, O, O), F32(O, I, I, O, O), F32(O, O, I, O, I), F32(O, O, O, I, I))
  }

  lemma Constants()
    ensures Packed(EncodingConstant(BECH32)) == 1 && Packed(EncodingConstant(BECH32M)) == 0x2bc830a3
  {
  }

  function Expand(hrp: string): seq<F32> {
    seq(|hrp|, i requires 0 <= i < |hrp| => F(hrp[i] as int / 32 % 32)) + [ZERO]
    + seq(|hrp|, i requires 0 <= i < |hrp| => F(hrp[i] as int % 32))
  }

  /** The high bits of the prefix, a zero, the low five bits of the prefix, and the values. */
  method PreparePolynomialCoefficients(hrp: string, values: seq<F32>) returns (r: seq<F32>)
    ensures r == Expand(hrp) + values
    ensures |r| == 2 * |hrp| + 1 + |values| && r[|hrp|] == ZERO && r[2 * |hrp| + 1..] == values
    ensures forall i {:trigger hrp[i]} :: 0 <= i < |hrp| && hrp[i] as int < 1024 ==> Code(r[i]) == hrp[i] as int / 32
    ensures forall i {:trigger hrp[i]} :: 0 <= i < |hrp| ==> Code(r[|hrp| + 1 + i]) == hrp[i] as int % 32
  {
    r := [];
    for i := 0 to |hrp|
      invariant |r| == i && forall j :: 0 <= j < i ==> r[j] == F(hrp[j] as int / 32 % 32)
    {
      r := r + [F(hrp[i] as int / 32 % 32)];
    }
    r := r + [ZERO];
    for i := 0 to |hrp|
      invariant |r| == |hrp| + 1 + i && r[|hrp|] == ZERO
      invariant forall j :: 0 <= j < |hrp| ==> r[j] == F(hrp[j] as int / 32 % 32)
      invariant forall j :: 0 <= j < i ==> r[|hrp| + 1 + j] == F(hrp[j] as int % 32)
    {
      r := r + [F(hrp[i] as int % 32)];
    }
    assert r == Expand(hrp);
    r := r + values;
    forall i | 0 <= i < |hrp|
      ensures hrp[i] as int < 1024 ==> Code(r[i]) == hrp[i] as int / 32
      ensures Code(r[|hrp| + 1 + i]) == hrp[i] as int % 32
    {
      CodeOfSymbol(hrp[i] as int / 32 % 32);
      CodeOfSymbol(hrp[i] as int % 32);
    }
  }

  function Checksum(e: Encoding, enc: seq<F32>): seq<F32> {
    Symbols(AddR(Poly(START, enc + Symbols(BLANK)), EncodingConstant(e)))
  }

  method CreateChecksum(e: Encoding, hrp: string, values: seq<F32>) returns (r: seq<F32>)
    ensures r == Checksum(e, Expand(hrp) + values)
  {
    var enc := PreparePolynomialCoefficients(hrp, values);
    enc := enc + Symbols(BLANK);
    var mod := PolyMod(enc);
    mod := AddR(mod, EncodingConstant(e));
    r := Symbols(mod);
  }

  function Verified(enc: seq<F32>): (r: DecodeResult) {
    var check := Poly(START, enc);
    if check == EncodingConstant(BECH32) then Decoded(BECH32, "", [])
    else if check == EncodingConstant(BECH32M) then Decoded(BECH32M, "", [])
    else Invalid
  }

  lemma AddRInverse(q: Residue, r: Residue, k: Residue)
    ensures AddR(q, r) == k <==> r == AddR(q, k)
  {
    AddRCancel(q, r);
    AddRCancel(q, k);
  }

  lemma AddRCancel(q: Residue, k: Residue)
    ensures AddR(q, AddR(q, k)) == k
  {
    AddCancel(q.r0, k.r0);
    AddCancel(q.r1, k.r1);
    AddCancel(q.r2, k.r2);
    AddCancel(q.r3, k.r3);
    AddCancel(q.r4, k.r4);
    AddCancel(q.r5, k.r5);
  }

  lemma AddCancel(a: F32, b: F32)
    ensures Add(a, Add(a, b)) == b
  {
  }

  /** Six symbols complete a word to a given constant exactly when they are its checksum. */
  lemma ChecksumUnique(e: Encoding, enc: seq<F32>, r: Residue)
    ensures Poly(START, enc + Symbols(r)) == EncodingConstant(e) <==> Symbols(r) == Checksum(e, enc)
  {
    var p := Poly(START, enc);
    var q := Poly(p, Symbols(BLANK));
    PolyConcat(START, enc, Symbols(r));
    PolyConcat(START, enc, Symbols(BLANK));
    AppendSix(p, r);
    AddRInverse(q, r, EncodingConstant(e));
    SymbolsInjective(r, AddR(q, EncodingConstant(e)));
  }

  lemma SymbolsInjective(a: Residue, b: Residue)
    ensures Symbols(a) == Symbols(b) <==> a == b
  {
    if Symbols(a) == Symbols(b) {
      assert Symbols(a)[0] == Symbols(b)[0] && Symbols(a)[1] == Symbols(b)[1] && Symbols(a)[2] == Symbols(b)[2];
      assert Symbols(a)[3] == Symbols(b)[3] && Symbols(a)[4] == Symbols(b)[4] && Symbols(a)[5] == Symbols(b)[5];
    }
  }

  // ---------- Encoding ----------

  function Text(vs: seq<F32>): string { seq(|vs|, i requires 0 <= i < |vs| => CharAt(Code(vs[i]))) }

  function Encoded(e: Encoding, hrp: string, values: seq<F32>): string {
    hrp + [SEPARATOR] + Text(values) + Text(Checksum(e, Expand(hrp) + values))
  }

  method AppendText(start: string, vs: seq<F32>) returns (r: string)
    ensures r == start + Text(vs)
  {
    r := start;
    for i := 0 to |vs|
      invariant |r| == |start| + i && r[..|start|] == start
      invariant forall j {:trigger vs[j]} :: 0 <= j < i ==> r[|start| + j] == CharAt(Code(vs[j]))
    {
      r := r + [CharAt(Code(vs[i]))];
    }
    assert r[|start|..] == Text(vs);
    assert r == r[..|start|] + r[|start|..];
  }

  method Encode(e: Encoding, hrp: string, values: seq<F32>) returns (r: string)
    requires forall c :: c in hrp ==> !IsUpper(c)
    ensures r == Encoded(e, hrp, values)
    ensures |r| == |hrp| + |values| + 7 && r[..|hrp|] == hrp && r[|hrp|] == '1'
    ensures forall i {:trigger values[i]} :: 0 <= i < |values| ==> r[|hrp| + 1 + i] == CharAt(Code(values[i]))
  {
    r := hrp + [SEPARATOR];
    r := AppendText(r, values);
    var checksum := CreateChecksum(e, hrp, values);
    r := AppendText(r, checksum);
  }

  // ---------- Decoding ----------

  /** str.rfind(SEPARATOR), or -1. */
  function LastSeparator(s: string): (r: int)
    ensures -1 <= r < |s| && (r >= 0 ==> s[r] == SEPARATOR) && forall i :: r < i < |s| ==> s[i] != SEPARATOR
  {
    if s == [] then -1
    else if s[|s| - 1] == SEPARATOR then |s| - 1
    else LastSeparator(s[..|s| - 1])
  }

  predicate AllSymbols(s: string) { forall i :: 0 <= i < |s| ==> Rev(s[i]) != -1 }

  function SymbolsOf(s: string): seq<F32>
    requires AllSymbols(s)
  {
    seq(|s|, i requires 0 <= i < |s| => F(Rev(s[i])))
  }

  function Lowered(s: string): string { seq(|s|, i requires 0 <= i < |s| => LowerCase(s[i])) }

  function DecodedText(s: string, limit: nat): DecodeResult {
    var pos := LastSeparator(s);
    if !CharactersOk(s) || |s| > limit || pos <= 0 || pos + CHECKSUM_SIZE >= |s| || !AllSymbols(s[pos + 1..]) then Invalid
    else
      var hrp, values := Lowered(s[..pos]), SymbolsOf(s[pos + 1..]);
      match Verified(Expand(hrp) + values)
      case Invalid => Invalid
      case Decoded(e, _, _) => Decoded(e, hrp, values[..|values| - CHECKSUM_SIZE])
  }

  method ReadSymbols(s: string) returns (ok: bool, values: seq<F32>)
    ensures ok <==> AllSymbols(s)
    ensures ok ==> values == SymbolsOf(s)
  {
    values := [];
    for i := 0 to |s|
      invariant |values| == i
      invariant forall j {:trigger s[j]} :: 0 <= j < i ==> Rev(s[j]) != -1 && values[j] == F(Rev(s[j]))
    {
      var rev := Rev(s[i]);
      if rev == -1 {
        return false, [];
      }
      values := values + [F(rev)];
    }
    return true, values;
  }

  method ToLower(s: string) returns (r: string)
    ensures r == Lowered(s)
  {
    r := "";
    for i := 0 to |s|
      invariant |r| == i && forall j {:trigger s[j]} :: 0 <= j < i ==> r[j] == LowerCase(s[j])
    {
      r := r + [LowerCase(s[i])];
    }
  }

  method VerifyChecksum(hrp: string, values: seq<F32>) returns (r: DecodeResult)
    ensures r == Verified(Expand(hrp) + values)
  {
    var enc := PreparePolynomialCoefficients(hrp, values);
    var check := PolyMod(enc);
    if check == EncodingConstant(BECH32) {
      return Decoded(BECH32, "", []);
    }
    if check == EncodingConstant(BECH32M) {
      return Decoded(BECH32M, "", []);
    }
    return Invalid;
  }

  method Decode(s: string, limit: nat) returns (r: DecodeResult)
    ensures r == DecodedText(s, limit)
  {
    var ok, errors := CheckCharacters(s);
    if !ok {
      return Invalid;
    }
    var pos := LastSeparator(s);
    if |s| > limit {
      return Invalid;
    }
    if pos <= 0 || pos + CHECKSUM_SIZE >= |s| {
      return Invalid;
    }
    var values;
    ok, values := ReadSymbols(s[pos + 1..]);
    if !ok {
      return Invalid;
    }
    var hrp := ToLower(s[..pos]);
    var result := VerifyChecksum(hrp, values);
    match result
    case Invalid => return Invalid;
    case Decoded(e, _, _) => return Decoded(e, hrp, values[..|values| - CHECKSUM_SIZE]);
  }
}

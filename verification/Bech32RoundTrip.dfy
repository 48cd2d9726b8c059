/** Decoding undoes encoding, and encoding what was decoded gives the string in lower case. */
module Bech32RoundTrip {
  import opened Bech32Field
  import opened Bech32Poly
  import opened Bech32

  lemma TextIsPlain(vs: seq<F32>, i: nat)
    requires i < |vs|
    ensures var c := Text(vs)[i];
            Printable(c) && c != SEPARATOR && !IsUpper(c) && Rev(c) == Code(vs[i]) && F(Rev(c)) == vs[i]
  {
    CharIsPlain(Code(vs[i]));
    RevOfChar(Code(vs[i]));
    SymbolOfCode(vs[i]);
  }

  lemma SymbolsOfText(vs: seq<F32>)
    ensures AllSymbols(Text(vs)) && SymbolsOf(Text(vs)) == vs
  {
    forall i | 0 <= i < |vs| ensures Rev(Text(vs)[i]) != -1 && F(Rev(Text(vs)[i])) == vs[i] { TextIsPlain(vs, i); }
  }

  lemma TextOfSymbols(s: string)
    requires AllSymbols(s)
    ensures Text(SymbolsOf(s)) == Lowered(s)
  {
    forall i | 0 <= i < |s| ensures Text(SymbolsOf(s))[i] == Lowered(s)[i] {
      CharOfRev(LowerCase(s[i]));
      CodeOfSymbol(Rev(s[i]));
    }
  }

  /** The human-readable parts that BIP 173 allows, in lower case. */
  predicate GoodPrefix(hrp: string) { |hrp| > 0 && forall i :: 0 <= i < |hrp| ==> Printable(hrp[i]) && !IsUpper(hrp[i]) }

  lemma SeparatorFound(hrp: string, vs: seq<F32>)
    ensures LastSeparator(hrp + [SEPARATOR] + Text(vs)) == |hrp|
  {
    var t := Text(vs);
    forall i | 0 <= i < |t| ensures t[i] != SEPARATOR { TextIsPlain(vs, i); }
    SeparatorIs(hrp + [SEPARATOR] + t, |hrp|);
  }

  lemma SeparatorIs(s: string, p: nat)
    requires p < |s| && s[p] == SEPARATOR && forall i :: p < i < |s| ==> s[i] != SEPARATOR
    ensures LastSeparator(s) == p
  {
  }

  lemma EncodedCharactersOk(hrp: string, vs: seq<F32>)
    requires GoodPrefix(hrp)
    ensures CharactersOk(hrp + [SEPARATOR] + Text(vs))
  {
    var s := hrp + [SEPARATOR] + Text(vs);
    forall i | 0 <= i < |s| ensures Printable(s[i]) && !IsUpper(s[i]) {
      if i > |hrp| {
        TextIsPlain(vs, i - |hrp| - 1);
      }
    }
    NoUpperCase(s);
  }

  lemma LoweredPrefix(hrp: string)
    requires GoodPrefix(hrp)
    ensures Lowered(hrp) == hrp
  {
  }

  lemma TextConcat(a: seq<F32>, b: seq<F32>)
    ensures Text(a) + Text(b) == Text(a + b)
  {
  }

  lemma ConstantsDiffer()
    ensures EncodingConstant(BECH32) != EncodingConstant(BECH32M)
  {
  }

  lemma VerifiedIs(e: Encoding, enc: seq<F32>)
    requires Poly(START, enc) == EncodingConstant(e)
    ensures Verified(enc) == Decoded(e, "", [])
  {
    ConstantsDiffer();
  }

  lemma ChecksumVerifies(e: Encoding, enc: seq<F32>)
    ensures |Checksum(e, enc)| == 6 && Verified(enc + Checksum(e, enc)) == Decoded(e, "", [])
  {
    ChecksumUnique(e, enc, AddR(Poly(START, enc + Symbols(BLANK)), EncodingConstant(e)));
    VerifiedIs(e, enc + Checksum(e, enc));
  }

  lemma DecodeOf(hrp: string, vs: seq<F32>, limit: nat, e: Encoding)
    requires GoodPrefix(hrp) && |vs| >= 6 && |hrp| + 1 + |vs| <= limit
    requires Verified(Expand(hrp) + vs) == Decoded(e, "", [])
    ensures DecodedText(hrp + [SEPARATOR] + Text(vs), limit) == Decoded(e, hrp, vs[..|vs| - 6])
  {
    var s := hrp + [SEPARATOR] + Text(vs);
    SeparatorFound(hrp, vs);
    EncodedCharactersOk(hrp, vs);
    assert s[..|hrp|] == hrp && s[|hrp| + 1..] == Text(vs);
    SymbolsOfText(vs);
    LoweredPrefix(hrp);
  }

  /** Decode(Encode(x)) = x for every lower-case printable prefix and every payload that
      stays within the length limit. */
  lemma DecodeEncode(e: Encoding, hrp: string, values: seq<F32>, limit: nat)
    requires GoodPrefix(hrp) && |hrp| + 1 + |values| + 6 <= limit
    ensures DecodedText(Encoded(e, hrp, values), limit) == Decoded(e, hrp, values)
  {
    var enc := Expand(hrp) + values;
    var checksum := Checksum(e, enc);
    ChecksumVerifies(e, enc);
    var vs := values + checksum;
    TextConcat(values, checksum);
    assert Encoded(e, hrp, values) == hrp + [SEPARATOR] + Text(vs);
    assert Expand(hrp) + vs == enc + checksum;
    DecodeOf(hrp, vs, limit, e);
    assert vs[..|vs| - 6] == values;
  }

  lemma LastSix(vs: seq<F32>) returns (r: Residue)
    requires |vs| >= 6
    ensures vs == vs[..|vs| - 6] + Symbols(r)
  {
    var n := |vs| - 6;
    r := Residue(vs[n], vs[n + 1], vs[n + 2], vs[n + 3], vs[n + 4], vs[n + 5]);
    assert vs[n..] == Symbols(r);
  }

  /** What Verified accepts ends in its checksum. */
  lemma AcceptedChecksum(e: Encoding, x: seq<F32>, vs: seq<F32>)
    requires |vs| >= 6 && Verified(x + vs) == Decoded(e, "", [])
    ensures vs == vs[..|vs| - 6] + Checksum(e, x + vs[..|vs| - 6])
  {
    var r := LastSix(vs);
    var payload := vs[..|vs| - 6];
    assert x + vs == x + payload + Symbols(r);
    ChecksumUnique(e, x + payload, r);
  }

  lemma LoweredParts(s: string, pos: nat)
    requires pos < |s| && s[pos] == SEPARATOR
    ensures Lowered(s) == Lowered(s[..pos]) + [SEPARATOR] + Lowered(s[pos + 1..])
  {
  }

  /** Every accepted string is, in lower case, the encoding of what it decodes to. */
  lemma EncodeDecode(s: string, limit: nat)
    requires DecodedText(s, limit).Decoded?
    ensures var d := DecodedText(s, limit); Encoded(d.encoding, d.hrp, d.data) == Lowered(s)
  {
    var d := DecodedText(s, limit);
    var pos := LastSeparator(s);
    var vs := SymbolsOf(s[pos + 1..]);
    var x := Expand(d.hrp);
    AcceptedChecksum(d.encoding, x, vs);
    TextOfSymbols(s[pos + 1..]);
    TextConcat(d.data, Checksum(d.encoding, x + d.data));
    LoweredParts(s, pos);
  }

  /** No two different strings, up to case, decode to the same thing. */
  lemma DecodeInjective(s: string, t: string, limit: nat)
    requires DecodedText(s, limit).Decoded? && DecodedText(s, limit) == DecodedText(t, limit)
    ensures Lowered(s) == Lowered(t)
  {
    EncodeDecode(s, limit);
    EncodeDecode(t, limit);
  }

  // ---------- Which strings are accepted ----------

  predicate HasLower(s: string) { exists i :: 0 <= i < |s| && 'a' <= s[i] <= 'z' }

  predicate HasUpper(s: string) { exists i :: 0 <= i < |s| && 'A' <= s[i] <= 'Z' }

  lemma {:induction false} CaseOfIs(s: string)
    ensures CaseOf(s) == Lower ==> HasLower(s)
    ensures CaseOf(s) == Upper ==> HasUpper(s)
    ensures CaseOf(s) == NoCase <==> !HasLower(s) && !HasUpper(s)
  {
    if s != [] {
      var t := s[1..];
      CaseOfIs(t);
      assert forall i :: 0 <= i < |t| ==> t[i] == s[i + 1];
      assert forall i :: 1 <= i < |s| ==> s[i] == t[i - 1];
    }
  }

  /** A string passes the first test exactly when it is printable and not of mixed case. */
  lemma CharactersOkIs(s: string)
    ensures CharactersOk(s) <==> (forall i :: 0 <= i < |s| ==> 33 <= s[i] as int <= 126) && !(HasLower(s) && HasUpper(s))
  {
    CaseOfIs(s);
    if CharactersOk(s) {
      forall i | 0 <= i < |s|
        ensures Printable(s[i]) && (CaseOf(s) == Lower ==> !IsUpper(s[i])) && (CaseOf(s) == Upper ==> !IsLower(s[i]))
      {
        assert !Flagged(s, i);
      }
    }
  }

  lemma LoweredSeparator(s: string)
    ensures LastSeparator(Lowered(s)) == LastSeparator(s)
  {
    var p, q := LastSeparator(s), LastSeparator(Lowered(s));
    assert forall i :: 0 <= i < |s| ==> (Lowered(s)[i] == SEPARATOR <==> s[i] == SEPARATOR);
    assert p >= 0 ==> Lowered(s)[p] == SEPARATOR;
    assert q >= 0 ==> s[q] == SEPARATOR;
  }

  lemma LoweredSymbols(s: string)
    ensures AllSymbols(Lowered(s)) <==> AllSymbols(s)
    ensures AllSymbols(s) ==> SymbolsOf(Lowered(s)) == SymbolsOf(s)
  {
    assert forall i :: 0 <= i < |s| ==> Rev(Lowered(s)[i]) == Rev(s[i]);
  }

  /** Decoding does not look at the case of a string that is not of mixed case. */
  lemma DecodeLowered(s: string, limit: nat)
    requires CharactersOk(s) && CharactersOk(Lowered(s))
    ensures DecodedText(Lowered(s), limit) == DecodedText(s, limit)
  {
    var pos := LastSeparator(s);
    LoweredSeparator(s);
    if pos > 0 {
      assert Lowered(s)[pos + 1..] == Lowered(s[pos + 1..]);
      LoweredSymbols(s[pos + 1..]);
      assert Lowered(Lowered(s)[..pos]) == Lowered(s[..pos]);
    }
  }

  lemma DecodedPrefix(s: string, limit: nat)
    requires DecodedText(s, limit).Decoded?
    ensures GoodPrefix(DecodedText(s, limit).hrp)
  {
    var pos := LastSeparator(s);
    forall i | 0 <= i < pos ensures Printable(LowerCase(s[i])) && !IsUpper(LowerCase(s[i])) { assert !Flagged(s, i); }
  }

  lemma DecodeAccepts(s: string, limit: nat, e: Encoding, hrp: string, values: seq<F32>)
    requires CharactersOk(s) && |s| <= limit && GoodPrefix(hrp) && Lowered(s) == Encoded(e, hrp, values)
    ensures DecodedText(s, limit) == Decoded(e, hrp, values)
  {
    var checksum := Checksum(e, Expand(hrp) + values);
    TextConcat(values, checksum);
    assert Lowered(s) == hrp + [SEPARATOR] + Text(values + checksum);
    EncodedCharactersOk(hrp, values + checksum);
    DecodeLowered(s, limit);
    DecodeEncode(e, hrp, values, limit);
  }

  /** A string decodes to an encoding, a prefix and a payload if and only if it fits the limit, is printable and
      not of mixed case, and is in lower case what Encode makes of them for a prefix that BIP 173 allows. */
  lemma DecodedExactly(s: string, limit: nat, e: Encoding, hrp: string, values: seq<F32>)
    ensures DecodedText(s, limit) == Decoded(e, hrp, values) <==>
            CharactersOk(s) && |s| <= limit && GoodPrefix(hrp) && Lowered(s) == Encoded(e, hrp, values)
  {
    if DecodedText(s, limit) == Decoded(e, hrp, values) {
      EncodeDecode(s, limit);
      DecodedPrefix(s, limit);
    }
    if CharactersOk(s) && |s| <= limit && GoodPrefix(hrp) && Lowered(s) == Encoded(e, hrp, values) {
      DecodeAccepts(s, limit, e, hrp, values);
    }
  }
}

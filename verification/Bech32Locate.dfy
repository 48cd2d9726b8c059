/** Locating a single wrong symbol (src/bech32.cpp, LocateErrors). */
module Bech32Locate {
  import opened Bech32Field
  import opened Bech32Ext
  import opened Bech32Order
  import opened Bech32Poly
  import opened Bech32Roots
  import opened Bech32Errors
  import opened Bech32Tables
  import opened Bech32Syndrome
  import opened Bech32
  import opened Folding

  /** What one encoding's attempt finds: no error at all, the possible positions of a single
      error, or syndromes that no single error produces. */
  datatype Attempt = NoErrors | Positions(positions: seq<int>) | NotSingle

  predicate Matches(l0: int, l1: int, l2: int) {
    l0 != -1 && l1 != -1 && l2 != -1 && (2 * l1 - l2 - l0 + 2046) % 1023 == 0
  }

  /** The log-table branch for a single error in the last `length` of `size` characters. */
  function Locate(l0: int, l1: int, l2: int, length: nat, size: nat): Attempt {
    if !Matches(l0, l1, l2) then NotSingle
    else
      var p1 := (l1 - l0 + 1023) % 1023;
      var le := l0 + (1023 - 997) * p1;
      if p1 < length && le % 33 == 0 then Positions([size - p1 - 1]) else Positions([])
  }

  method AttemptFor(e: Encoding, hrp: string, values: seq<F32>, size: nat, exp: seq<F1024>, log: seq<int>, consts: seq<Triple>)
    returns (a: Attempt)
    requires Tables(exp, log) && ConstsOk(consts)
    ensures var r := AddR(Poly(START, Expand(hrp) + values), EncodingConstant(e));
            a == if r == BLANK then NoErrors else Found(log, Times997, Times998, Times999, r, |values|, size)
  {
    var enc := PreparePolynomialCoefficients(hrp, values);
    var residue := PolyMod(enc);
    residue := AddR(residue, EncodingConstant(e));
    if residue == BLANK {
      return NoErrors;
    }
    var syn := Syndrome(residue, consts);
    a := Locate(log[Index(syn.s0)], log[Index(syn.s1)], log[Index(syn.s2)], |values|, size);
  }

  // ---------- A single error is found ----------

  lemma LocateFrom(l0: int, l1: int, l2: int, p: nat, length: nat, size: nat)
    requires Matches(l0, l1, l2) && (l1 - l0 + 1023) % 1023 == p && (l0 + 26 * p) % 33 == 0 && p < length
    ensures Locate(l0, l1, l2, length, size) == Positions([size - p - 1])
  {
  }

  /** Logs of x e^(997p), x e^(998p), x e^(999p), where log x is t, a multiple of 33. */
  lemma LogsLocate(p: nat, t: nat, a: int, b: int, c: int, l0: int, l1: int, l2: int, length: nat, size: nat)
    requires p < 1023 && p < length && t % 33 == 0
    requires l0 == 997 * p + t - 1023 * a && l1 == 998 * p + t - 1023 * b && l2 == 999 * p + t - 1023 * c
    requires 0 <= l0 && 0 <= l1 && 0 <= l2
    ensures Locate(l0, l1, l2, length, size) == Positions([size - p - 1])
  {
    Multiple(2 * l1 - l2 - l0 + 2046, c + a - 2 * b + 2);
    Remainder(l1 - l0 + 1023, p, a - b + 1);
    MultipleOf33More(l0 + 26 * p, t, 31 * (p - a));
    LocateFrom(l0, l1, l2, p, length, size);
  }

  lemma Multiple(n: int, k: int)
    requires n == 1023 * k
    ensures n % 1023 == 0
  {
  }

  lemma Remainder(n: int, p: nat, k: int)
    requires n == p + 1023 * k && p < 1023
    ensures n % 1023 == p
  {
  }

  lemma MultipleOf33More(n: int, t: int, k: int)
    requires n == t + 33 * k && t % 33 == 0
    ensures n % 33 == 0
  {
  }

  /** The received word's register, with the constant removed, is the error's. */
  lemma ErrorResidue(u: seq<F32>, v: seq<F32>, k: Residue)
    requires |u| == |v| && Poly(START, v) == k
    ensures AddR(Poly(START, u), k) == Poly(BLANK, Zip(Add, u, v))
  {
    PolyLinear(START, START, u, v);
    StartTwice();
  }

  lemma StartTwice()
    ensures AddR(START, START) == BLANK
  {
  }

  lemma OneDifference(u: seq<F32>, v: seq<F32>, i: nat)
    requires |u| == |v| && i < |u| && forall m {:trigger u[m]} :: 0 <= m < |u| && m != i ==> u[m] == v[m]
    ensures Zip(Add, u, v) == Single(|u|, |u| - 1 - i, Add(u[i], v[i]))
  {
    var d, e := Zip(Add, u, v), Single(|u|, |u| - 1 - i, Add(u[i], v[i]));
    forall m | 0 <= m < |u| ensures d[m] == e[m] { AddZero(u[m], v[m]); }
  }

  /** What AttemptFor computes from a non-zero residue, at three points. */
  ghost function Found(log: seq<int>, f: F1024 -> F1024, g: F1024 -> F1024, h: F1024 -> F1024, r: Residue, length: nat, size: nat): Attempt
    requires |log| == 1024
  {
    Locate(log[Index(Eval(f, r))], log[Index(Eval(g, r))], log[Index(Eval(h, r))], length, size)
  }

  lemma LogAtPoint(exp: seq<F1024>, log: seq<int>, f: F1024 -> F1024, j: nat, n: nat, p: nat, x: F32, r: Residue, t: nat, m: nat)
    requires Tables(exp, log) && p < n && r == Poly(BLANK, Single(n, p, x)) && Pow(t) == Embed(x) && m == j * p && Point(f, j)
    ensures log[Index(Eval(f, r))] == (m + t) % 1023
  {
    ErrorSyndrome(f, j, n, p, x, r, m);
    ShiftedPow(m, t, Embed(x));
    TableLogOfPow(exp, log, m + t);
  }

  lemma ShiftedPow(m: nat, t: nat, v: F1024)
    requires Pow(t) == v
    ensures Shift(m, v) == Pow(m + t)
  {
    ShiftShift(m, t, UNIT);
  }

  lemma LogAt997(exp: seq<F1024>, log: seq<int>, n: nat, p: nat, x: F32, r: Residue, t: nat)
    requires Tables(exp, log) && p < n && r == Poly(BLANK, Single(n, p, x)) && Pow(t) == Embed(x)
    ensures log[Index(Eval(Times997, r))] == (997 * p + t) % 1023
  {
    Points();
    LogAtPoint(exp, log, Times997, 997, n, p, x, r, t, 997 * p);
  }

  lemma LogAt998(exp: seq<F1024>, log: seq<int>, n: nat, p: nat, x: F32, r: Residue, t: nat)
    requires Tables(exp, log) && p < n && r == Poly(BLANK, Single(n, p, x)) && Pow(t) == Embed(x)
    ensures log[Index(Eval(Times998, r))] == (998 * p + t) % 1023
  {
    Points();
    LogAtPoint(exp, log, Times998, 998, n, p, x, r, t, 998 * p);
  }

  lemma LogAt999(exp: seq<F1024>, log: seq<int>, n: nat, p: nat, x: F32, r: Residue, t: nat)
    requires Tables(exp, log) && p < n && r == Poly(BLANK, Single(n, p, x)) && Pow(t) == Embed(x)
    ensures log[Index(Eval(Times999, r))] == (999 * p + t) % 1023
  {
    Points();
    LogAtPoint(exp, log, Times999, 999, n, p, x, r, t, 999 * p);
  }

  /** The log of a non-zero symbol is a multiple of 33. */
  lemma SymbolLog(x: F32) returns (t: nat)
    requires x != ZERO
    ensures t % 33 == 0 && Pow(t) == Embed(x)
  {
    t := PowOnto(Embed(x));
    ScalarLog(t, x);
  }

  lemma SingleLocated(exp: seq<F1024>, log: seq<int>, n: nat, p: nat, x: F32, r: Residue, length: nat, size: nat)
    requires Tables(exp, log) && p < n <= 1023 && p < length && x != ZERO && r == Poly(BLANK, Single(n, p, x))
    ensures Found(log, Times997, Times998, Times999, r, length, size) == Positions([size - p - 1])
  {
    var t := SymbolLog(x);
    LogAt997(exp, log, n, p, x, r, t);
    LogAt998(exp, log, n, p, x, r, t);
    LogAt999(exp, log, n, p, x, r, t);
    FoundFrom(log, Times997, Times998, Times999, p, t, r, length, size);
  }

  lemma FoundFrom(log: seq<int>, f: F1024 -> F1024, g: F1024 -> F1024, h: F1024 -> F1024, p: nat, t: nat, r: Residue, length: nat, size: nat)
    requires |log| == 1024 && p < 1023 && p < length && t % 33 == 0
    requires log[Index(Eval(f, r))] == (997 * p + t) % 1023 && log[Index(Eval(g, r))] == (998 * p + t) % 1023
    requires log[Index(Eval(h, r))] == (999 * p + t) % 1023
    ensures Found(log, f, g, h, r, length, size) == Positions([size - p - 1])
  {
    RemaindersLocate(p, t, log[Index(Eval(f, r))], log[Index(Eval(g, r))], log[Index(Eval(h, r))], length, size);
  }

  lemma RemaindersLocate(p: nat, t: nat, l0: int, l1: int, l2: int, length: nat, size: nat)
    requires p < 1023 && p < length && t % 33 == 0
    requires l0 == (997 * p + t) % 1023 && l1 == (998 * p + t) % 1023 && l2 == (999 * p + t) % 1023
    ensures Locate(l0, l1, l2, length, size) == Positions([size - p - 1])
  {
    LogsLocate(p, t, (997 * p + t) / 1023, (998 * p + t) / 1023, (999 * p + t) / 1023, l0, l1, l2, length, size);
  }

  lemma ErrorIsSingle(e: Encoding, u: seq<F32>, v: seq<F32>, i: nat, r: Residue)
    requires |u| == |v| && i < |u| && u[i] != v[i]
    requires forall m {:trigger u[m]} :: 0 <= m < |u| && m != i ==> u[m] == v[m]
    requires Poly(START, v) == EncodingConstant(e) && r == AddR(Poly(START, u), EncodingConstant(e))
    ensures Add(u[i], v[i]) != ZERO && r == Poly(BLANK, Single(|u|, |u| - 1 - i, Add(u[i], v[i])))
  {
    ErrorResidue(u, v, EncodingConstant(e));
    OneDifference(u, v, i);
    AddZero(u[i], v[i]);
  }

  /** One wrong symbol in the data part of a word of at most 1023 symbols that had a valid
      checksum: the attempt with that encoding's constant names exactly its place. */
  lemma OneErrorFound(e: Encoding, u: seq<F32>, v: seq<F32>, i: nat, p: nat, r: Residue, length: nat, size: nat, exp: seq<F1024>, log: seq<int>)
    requires Tables(exp, log) && |u| == |v| <= 1023 && i + p + 1 == |u| && p < length && u[i] != v[i]
    requires forall m {:trigger u[m]} :: 0 <= m < |u| && m != i ==> u[m] == v[m]
    requires Poly(START, v) == EncodingConstant(e) && r == AddR(Poly(START, u), EncodingConstant(e))
    ensures Found(log, Times997, Times998, Times999, r, length, size) == Positions([size - p - 1])
  {
    ErrorIsSingle(e, u, v, i, r);
    SingleLocated(exp, log, |u|, p, Add(u[i], v[i]), r, length, size);
  }
}

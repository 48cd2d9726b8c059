/** The syndrome of src/bech32.cpp: the residue evaluated at e^997, e^998 and e^999, computed
    bit by bit from precomputed constants. */
module Bech32Syndrome {
  import opened Bech32Field
  import opened Bech32Ext
  import opened Bech32Order
  import opened Bech32Poly
  import opened Bech32Roots
  import opened Bech32Errors
  import opened Bech32Tables
  import opened Iteration
  import opened Horner

  /** The three ten-bit groups of the result. */
  datatype Triple = Triple(s0: F1024, s1: F1024, s2: F1024)

  /** The symbol 1 << s. */
  function BitSymbol(s: nat): F32 { F32(s == 4, s == 3, s == 2, s == 1, s == 0) }

  function BitAt(g: F32, s: nat): bool {
    if s == 0 then g.b0 else if s == 1 then g.b1 else if s == 2 then g.b2 else if s == 3 then g.b3 else g.b4
  }

  /** The coefficient of x^k. */
  function Group(r: Residue, k: nat): F32 {
    if k == 0 then r.r5 else if k == 1 then r.r4 else if k == 2 then r.r3 else if k == 3 then r.r2 else if k == 4 then r.r1 else r.r0
  }

  // ---------- Evaluation bit by bit ----------

  function Pick(s: bool, v: F1024): F1024 { if s then v else NOUGHT }

  lemma EmbedBits(g: F32)
    ensures Plus(Plus(Plus(Plus(Pick(g.b0, Embed(BitSymbol(0))), Pick(g.b1, Embed(BitSymbol(1)))), Pick(g.b2, Embed(BitSymbol(2)))),
                      Pick(g.b3, Embed(BitSymbol(3)))), Pick(g.b4, Embed(BitSymbol(4)))) == Embed(g)
  {
  }

  lemma PickImage(h: F1024 -> F1024, s: bool, v: F1024)
    requires h(NOUGHT) == NOUGHT
    ensures Pick(s, h(v)) == h(Pick(s, v))
  {
  }

  /** Adding the images of the set bits of g is adding the image of g. */
  lemma FiveBits(h: F1024 -> F1024, base: F1024, g: F32)
    requires Additive(h, Plus) && h(NOUGHT) == NOUGHT
    ensures Plus(Plus(Plus(Plus(Plus(base, Pick(g.b0, h(Embed(BitSymbol(0))))), Pick(g.b1, h(Embed(BitSymbol(1))))),
                           Pick(g.b2, h(Embed(BitSymbol(2))))), Pick(g.b3, h(Embed(BitSymbol(3))))), Pick(g.b4, h(Embed(BitSymbol(4)))))
         == Plus(base, h(Embed(g)))
  {
    PickImage(h, g.b0, Embed(BitSymbol(0)));
    PickImage(h, g.b1, Embed(BitSymbol(1)));
    PickImage(h, g.b2, Embed(BitSymbol(2)));
    PickImage(h, g.b3, Embed(BitSymbol(3)));
    PickImage(h, g.b4, Embed(BitSymbol(4)));
    PlusLaws();
    FiveTerms(Plus, h, base, Pick(g.b0, Embed(BitSymbol(0))), Pick(g.b1, Embed(BitSymbol(1))), Pick(g.b2, Embed(BitSymbol(2))),
              Pick(g.b3, Embed(BitSymbol(3))), Pick(g.b4, Embed(BitSymbol(4))));
    EmbedBits(g);
  }

  function BitOf(r: Residue, i: nat): bool { BitAt(Group(r, i / 5 + 1), i % 5) }

  /** The running sum after i bits, with weight w(i) for bit i. */
  ghost function Part(w: nat -> F1024, r: Residue, i: nat): F1024 {
    if i == 0 then Embed(r.r5) else Plus(Part(w, r, i - 1), Pick(BitOf(r, i - 1), w(i - 1)))
  }

  /** The weights of group k are the images of the single bits. */
  ghost predicate GroupWeights(w: nat -> F1024, h: F1024 -> F1024, i: nat) {
    && w(i) == h(Embed(BitSymbol(0))) && w(i + 1) == h(Embed(BitSymbol(1))) && w(i + 2) == h(Embed(BitSymbol(2)))
    && w(i + 3) == h(Embed(BitSymbol(3))) && w(i + 4) == h(Embed(BitSymbol(4)))
  }

  lemma GroupBits(r: Residue, k: nat, i: nat, g: F32)
    requires k > 0 && i == 5 * (k - 1) && g == Group(r, k)
    ensures BitOf(r, i) == g.b0 && BitOf(r, i + 1) == g.b1 && BitOf(r, i + 2) == g.b2
    ensures BitOf(r, i + 3) == g.b3 && BitOf(r, i + 4) == g.b4
  {
  }

  lemma FiveParts(w: nat -> F1024, r: Residue, i: nat)
    ensures Part(w, r, i + 5)
         == Plus(Plus(Plus(Plus(Plus(Part(w, r, i), Pick(BitOf(r, i), w(i))), Pick(BitOf(r, i + 1), w(i + 1))),
                           Pick(BitOf(r, i + 2), w(i + 2))), Pick(BitOf(r, i + 3), w(i + 3))), Pick(BitOf(r, i + 4), w(i + 4)))
  {
    assert Part(w, r, i + 1) == Plus(Part(w, r, i), Pick(BitOf(r, i), w(i)));
    assert Part(w, r, i + 2) == Plus(Part(w, r, i + 1), Pick(BitOf(r, i + 1), w(i + 1)));
    assert Part(w, r, i + 3) == Plus(Part(w, r, i + 2), Pick(BitOf(r, i + 2), w(i + 2)));
    assert Part(w, r, i + 4) == Plus(Part(w, r, i + 3), Pick(BitOf(r, i + 3), w(i + 3)));
  }

  lemma PartGroup(w: nat -> F1024, h: F1024 -> F1024, r: Residue, k: nat, i: nat)
    requires k > 0 && i == 5 * (k - 1) && GroupWeights(w, h, i) && Additive(h, Plus) && h(NOUGHT) == NOUGHT
    ensures Part(w, r, i + 5) == Plus(Part(w, r, i), h(Embed(Group(r, k))))
  {
    FiveParts(w, r, i);
    GroupBits(r, k, i, Group(r, k));
    FiveBits(h, Part(w, r, i), Group(r, k));
  }

  /** Bit i weighs (1 << i mod 5) e^(j (i / 5 + 1)). */
  function Weight(j: nat, i: nat): F1024 { Shift(j * (i / 5 + 1), Embed(BitSymbol(i % 5))) }

  function Mover(m: nat): F1024 -> F1024 { (v: F1024) => Shift(m, v) }

  lemma MoverLinear(m: nat)
    ensures Additive(Mover(m), Plus) && Mover(m)(NOUGHT) == NOUGHT
  {
    forall a, b ensures Mover(m)(Plus(a, b)) == Plus(Mover(m)(a), Mover(m)(b)) { ShiftLinear(m, a, b); }
    ShiftZero(m);
  }

  lemma WeightAt(j: nat, k: nat, s: nat, i: nat, m: nat)
    requires k > 0 && s < 5 && i == 5 * (k - 1) + s && m == j * k
    ensures Weight(j, i) == Shift(m, Embed(BitSymbol(s)))
  {
    assert i / 5 + 1 == k && i % 5 == s;
  }

  lemma WeightsOf(j: nat, k: nat, i: nat, w: nat -> F1024, m: nat)
    requires k > 0 && i == 5 * (k - 1) && m == j * k && forall n: nat {:trigger w(n)} :: w(n) == Weight(j, n)
    ensures GroupWeights(w, Mover(m), i)
  {
    WeightAt(j, k, 0, i, m);
    WeightAt(j, k, 1, i + 1, m);
    WeightAt(j, k, 2, i + 2, m);
    WeightAt(j, k, 3, i + 3, m);
    WeightAt(j, k, 4, i + 4, m);
  }

  lemma PartStep(j: nat, r: Residue, k: nat, w: nat -> F1024, m: nat)
    requires k > 0 && m == j * k && forall n: nat {:trigger w(n)} :: w(n) == Weight(j, n)
    ensures Part(w, r, 5 * k) == Plus(Part(w, r, 5 * k - 5), Shift(m, Embed(Group(r, k))))
  {
    var i := 5 * k - 5;
    WeightsOf(j, k, i, w, m);
    MoverLinear(m);
    PartGroup(w, Mover(m), r, k, i);
    assert i + 5 == 5 * k;
  }

  lemma PointSteps(f: F1024 -> F1024, j: nat, v: F1024)
    requires Point(f, j)
    ensures f(v) == Shift(j, v) && f(f(v)) == Shift(2 * j, v) && f(f(f(v))) == Shift(3 * j, v)
    ensures f(f(f(f(v)))) == Shift(4 * j, v) && f(f(f(f(f(v))))) == Shift(5 * j, v)
  {
    FewSteps(f, v);
    assert PowerIs(f, j, 1, v);
    assert PowerIs(f, j, 2, v);
    assert PowerIs(f, j, 3, v);
    assert PowerIs(f, j, 4, v);
    assert PowerIs(f, j, 5, v);
  }

  lemma FewSteps<T>(f: T -> T, v: T)
    ensures Iter(f, 1, v) == f(v) && Iter(f, 2, v) == f(f(v)) && Iter(f, 3, v) == f(f(f(v)))
    ensures Iter(f, 4, v) == f(f(f(f(v)))) && Iter(f, 5, v) == f(f(f(f(f(v)))))
  {
  }

  /** The 25 weighted bits above the constant term add up to the value at the point. */
  lemma PartIsEval(f: F1024 -> F1024, j: nat, r: Residue, w: nat -> F1024)
    requires Point(f, j) && forall n: nat {:trigger w(n)} :: w(n) == Weight(j, n)
    ensures Part(w, r, 25) == Eval(f, r)
  {
    PlusLaws();
    SumExpanded(Plus, f, Embed(r.r0), Embed(r.r1), Embed(r.r2), Embed(r.r3), Embed(r.r4), Embed(r.r5));
    PointSteps(f, j, Embed(r.r4));
    PointSteps(f, j, Embed(r.r3));
    PointSteps(f, j, Embed(r.r2));
    PointSteps(f, j, Embed(r.r1));
    PointSteps(f, j, Embed(r.r0));
    PartStep(j, r, 1, w, j);
    PartStep(j, r, 2, w, 2 * j);
    PartStep(j, r, 3, w, 3 * j);
    PartStep(j, r, 4, w, 4 * j);
    PartStep(j, r, 5, w, 5 * j);
  }

  // ---------- The code ----------

  lemma BitNonZero(s: nat)
    requires s < 5
    ensures Embed(BitSymbol(s)) != NOUGHT
  {
  }

  lemma Looked(exp: seq<F1024>, log: seq<int>, s: nat, m: nat, b: int)
    requires Tables(exp, log) && s < 5 && b == log[Index(Embed(BitSymbol(s)))]
    ensures 0 <= b < 1023 && exp[(m + b) % 1023] == Shift(m, Embed(BitSymbol(s)))
  {
    BitNonZero(s);
    TableLog(exp, log, Embed(BitSymbol(s)));
    PowMod(m + b);
    ShiftShift(m, b, UNIT);
    assert PowerAt(exp, (m + b) % 1023);
  }

  ghost function Weights(j: nat): nat -> F1024 { (i: nat) => Weight(j, i) }

  /** The table entry EXP[(j k + LOG[1 << s]) mod 1023]. */
  function Entry(exp: seq<F1024>, log: seq<int>, j: nat, k: nat, s: nat): F1024
    requires |exp| == 1023 && |log| == 1024
  {
    exp[(j * k + log[Index(Embed(BitSymbol(s)))]) % 1023]
  }

  ghost predicate EntryIs(exp: seq<F1024>, log: seq<int>, j: nat, w: nat -> F1024, k: nat, s: nat)
    requires |exp| == 1023 && |log| == 1024
  {
    1 <= k <= 5 && s < 5 ==> Entry(exp, log, j, k, s) == w(5 * (k - 1) + s)
  }

  ghost predicate Entries(exp: seq<F1024>, log: seq<int>, j: nat, w: nat -> F1024) {
    && |exp| == 1023 && |log| == 1024
    && forall k: nat, s: nat {:trigger EntryIs(exp, log, j, w, k, s)} :: EntryIs(exp, log, j, w, k, s)
  }

  lemma LookedWeight(exp: seq<F1024>, log: seq<int>, s: nat, j: nat, k: nat, m: nat, b: int)
    requires Tables(exp, log) && s < 5 && k > 0 && m == j * k && b == log[Index(Embed(BitSymbol(s)))]
    ensures 0 <= b < 1023 && exp[(m + b) % 1023] == Weight(j, 5 * (k - 1) + s)
  {
    Looked(exp, log, s, m, b);
    WeightAt(j, k, s, 5 * (k - 1) + s, m);
  }

  lemma TableEntries(exp: seq<F1024>, log: seq<int>, j: nat)
    requires Tables(exp, log)
    ensures Entries(exp, log, j, Weights(j))
  {
    forall k: nat, s: nat ensures EntryIs(exp, log, j, Weights(j), k, s) {
      if 1 <= k <= 5 && s < 5 {
        LookedWeight(exp, log, s, j, k, j * k, log[Index(Embed(BitSymbol(s)))]);
      }
    }
  }

  ghost predicate ConstAt(consts: seq<Triple>, w0: nat -> F1024, w1: nat -> F1024, w2: nat -> F1024, i: int) {
    0 <= i < |consts| ==> consts[i] == Triple(w0(i), w1(i), w2(i))
  }

  ghost predicate Weighted(consts: seq<Triple>, w0: nat -> F1024, w1: nat -> F1024, w2: nat -> F1024) {
    forall i {:trigger ConstAt(consts, w0, w1, w2, i)} :: ConstAt(consts, w0, w1, w2, i)
  }

  ghost predicate ConstsOk(consts: seq<Triple>) {
    |consts| == 25 && Weighted(consts, Weights(997), Weights(998), Weights(999))
  }

  method FillConstants(exp: seq<F1024>, log: seq<int>, ghost w0: nat -> F1024, ghost w1: nat -> F1024, ghost w2: nat -> F1024)
    returns (consts: seq<Triple>)
    requires Entries(exp, log, 997, w0) && Entries(exp, log, 998, w1) && Entries(exp, log, 999, w2)
    ensures |consts| == 25 && Weighted(consts, w0, w1, w2)
  {
    consts := [];
    for k := 1 to 6
      invariant |consts| == 5 * (k - 1) && Weighted(consts, w0, w1, w2)
    {
      for shift := 0 to 5
        invariant |consts| == 5 * (k - 1) + shift && Weighted(consts, w0, w1, w2)
      {
        assert EntryIs(exp, log, 997, w0, k, shift);
        assert EntryIs(exp, log, 998, w1, k, shift);
        assert EntryIs(exp, log, 999, w2, k, shift);
        var c := Triple(Entry(exp, log, 997, k, shift), Entry(exp, log, 998, k, shift), Entry(exp, log, 999, k, shift));
        consts := WeightedNext(consts, w0, w1, w2, c);
      }
    }
  }

  method WeightedNext(before: seq<Triple>, ghost w0: nat -> F1024, ghost w1: nat -> F1024, ghost w2: nat -> F1024, c: Triple)
    returns (consts: seq<Triple>)
    requires Weighted(before, w0, w1, w2) && c == Triple(w0(|before|), w1(|before|), w2(|before|))
    ensures consts == before + [c] && Weighted(consts, w0, w1, w2)
  {
    consts := before + [c];
    forall i ensures ConstAt(consts, w0, w1, w2, i) { assert ConstAt(before, w0, w1, w2, i); }
  }

  method GenerateSyndromeConstants(exp: seq<F1024>, log: seq<int>) returns (consts: seq<Triple>)
    requires Tables(exp, log)
    ensures ConstsOk(consts)
  {
    TableEntries(exp, log, 997);
    TableEntries(exp, log, 998);
    TableEntries(exp, log, 999);
    consts := FillConstants(exp, log, Weights(997), Weights(998), Weights(999));
  }

  function PlusT(a: Triple, b: Triple): Triple { Triple(Plus(a.s0, b.s0), Plus(a.s1, b.s1), Plus(a.s2, b.s2)) }

  ghost predicate PartsAre(result: Triple, r: Residue, i: nat, w0: nat -> F1024, w1: nat -> F1024, w2: nat -> F1024) {
    result == Triple(Part(w0, r, i), Part(w1, r, i), Part(w2, r, i))
  }

  lemma PartsStep(result: Triple, r: Residue, i: nat, c: Triple, w0: nat -> F1024, w1: nat -> F1024, w2: nat -> F1024)
    requires PartsAre(result, r, i, w0, w1, w2) && c == Triple(w0(i), w1(i), w2(i))
    ensures PartsAre(if BitOf(r, i) then PlusT(result, c) else result, r, i + 1, w0, w1, w2)
  {
    PlusZero(result.s0, NOUGHT);
    PlusZero(result.s1, NOUGHT);
    PlusZero(result.s2, NOUGHT);
  }

  /** The loop of Syndrome, for any weights. */
  method AddBits(residue: Residue, consts: seq<Triple>, ghost w0: nat -> F1024, ghost w1: nat -> F1024, ghost w2: nat -> F1024)
    returns (result: Triple)
    requires |consts| == 25 && Weighted(consts, w0, w1, w2)
    ensures PartsAre(result, residue, 25, w0, w1, w2)
  {
    var low := Embed(residue.r5);
    result := Triple(low, low, low);
    for i := 0 to 25
      invariant PartsAre(result, residue, i, w0, w1, w2)
    {
      assert ConstAt(consts, w0, w1, w2, i);
      PartsStep(result, residue, i, consts[i], w0, w1, w2);
      if BitOf(residue, i) {
        result := PlusT(result, consts[i]);
      }
    }
  }

  method Syndrome(residue: Residue, consts: seq<Triple>) returns (result: Triple)
    requires ConstsOk(consts)
    ensures result == Triple(Eval(Times997, residue), Eval(Times998, residue), Eval(Times999, residue))
  {
    result := AddBits(residue, consts, Weights(997), Weights(998), Weights(999));
    PartsAreEvals(residue, result);
  }

  lemma PartsAreEvals(r: Residue, result: Triple)
    requires PartsAre(result, r, 25, Weights(997), Weights(998), Weights(999))
    ensures result == Triple(Eval(Times997, r), Eval(Times998, r), Eval(Times999, r))
  {
    Points();
    PartIsEval(Times997, 997, r, Weights(997));
    PartIsEval(Times998, 998, r, Weights(998));
    PartIsEval(Times999, 999, r, Weights(999));
  }
}

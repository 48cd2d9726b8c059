/** Up to three changed symbols within a window of 1023 always change the checksum. */
module Bech32Detect {
  import opened Bech32Field
  import opened Bech32Ext
  import opened Bech32Order
  import opened Bech32Poly
  import opened Bech32Roots
  import opened Bech32Errors
  import opened Folding
  import opened Iteration
  import opened Horner

  /** (e^a + e^b) v. */
  function Diff(a: nat, b: nat, v: F1024): F1024 { Plus(Shift(a, v), Shift(b, v)) }

  lemma ShiftPow(a: nat, n: nat)
    ensures Shift(a, Pow(n)) == Pow(a + n)
  {
    ShiftShift(a, n, UNIT);
  }

  lemma DiffZero(a: nat, b: nat, v: F1024)
    requires a < 1023 && b < 1023 && a != b && Diff(a, b, v) == NOUGHT
    ensures v == NOUGHT
  {
    PlusZero(Shift(a, v), Shift(b, v));
    if v != NOUGHT {
      var n := PowOnto(v);
      ShiftPow(a, n);
      ShiftPow(b, n);
      PowEqual(a + n, b + n);
    }
  }

  lemma ShiftNonZero(n: nat, v: F1024)
    requires Shift(n, v) == NOUGHT
    ensures v == NOUGHT
  {
    ShiftZero(n);
    Injection();
    IterInjective(TimesE, n, v, NOUGHT);
  }

  lemma PlusComm(a: F1024, b: F1024)
    ensures Plus(a, b) == Plus(b, a)
  {
    AddComm(a.hi, b.hi);
    AddComm(a.lo, b.lo);
  }

  /** Sums of three terms that are zero, folded onto the first two. */
  lemma ThirdTerm(a: F1024, b: F1024, c: F1024, x: F1024, y: F1024)
    requires Plus(Plus(a, b), c) == NOUGHT && c == Plus(x, y)
    ensures Plus(Plus(a, x), Plus(b, y)) == NOUGHT
  {
    PlusSwap(a, x, b, y);
  }

  lemma TwiceShifted(p: nat, q: nat, u: F1024, w: F1024)
    requires w == Diff(p, q, u)
    ensures Diff(p, q, w) == Diff(2 * p, 2 * q, u)
  {
    var m := Shift(p + q, u);
    ShiftLinear(p, Shift(p, u), Shift(q, u));
    ShiftLinear(q, Shift(p, u), Shift(q, u));
    ShiftShift(p, p, u);
    ShiftShift(p, q, u);
    ShiftShift(q, p, u);
    ShiftShift(q, q, u);
    Cancelled(Shift(2 * p, u), m, Shift(2 * q, u));
  }

  lemma Cancelled(a: F1024, m: F1024, b: F1024)
    ensures Plus(Plus(a, m), Plus(m, b)) == Plus(a, b)
  {
    PlusComm(m, b);
    PlusSwap(a, m, b, m);
    PlusZero(m, m);
    PlusZero(Plus(a, b), NOUGHT);
  }

  lemma SharedTerm(a: F1024, b: F1024, c: F1024)
    ensures Plus(Plus(a, c), Plus(b, c)) == Plus(a, b)
  {
    PlusComm(b, c);
    Cancelled(a, c, b);
  }

  /** Three error terms with distinct positions whose syndromes all vanish are zero. */
  lemma Vandermonde(p: nat, q: nat, r: nat, u: F1024, v: F1024, w: F1024)
    requires p < 1023 && q < 1023 && r < 1023 && p != q && q != r && p != r
    requires Plus(Plus(u, v), w) == NOUGHT
    requires Plus(Plus(Shift(p, u), Shift(q, v)), Shift(r, w)) == NOUGHT
    requires Plus(Plus(Shift(2 * p, u), Shift(2 * q, v)), Shift(2 * r, w)) == NOUGHT
    ensures u == NOUGHT && v == NOUGHT && w == NOUGHT
  {
    PlusZero(Plus(u, v), w);
    ShiftLinear(r, u, v);
    ShiftLinear(2 * r, u, v);
    ThirdTerm(Shift(p, u), Shift(q, v), Shift(r, w), Shift(r, u), Shift(r, v));
    ThirdTerm(Shift(2 * p, u), Shift(2 * q, v), Shift(2 * r, w), Shift(2 * r, u), Shift(2 * r, v));
    var d := Diff(p, r, u);
    PlusZero(d, Diff(q, r, v));
    TwiceShifted(p, r, u, d);
    TwiceShifted(q, r, v, d);
    SharedTerm(Shift(p, d), Shift(q, d), Shift(r, d));
    DiffZero(p, q, d);
    DiffZero(p, r, u);
    DiffZero(q, r, v);
    PlusZero(u, v);
  }

  // ---------- Three errors ----------

  function Three(n: nat, p: nat, q: nat, r: nat, x: F32, y: F32, z: F32): seq<F32>
    requires p < n && q < n && r < n
  {
    Zip(Add, Zip(Add, Single(n, p, x), Single(n, q, y)), Single(n, r, z))
  }

  lemma EmbedPlus(a: F32, b: F32)
    ensures Embed(Add(a, b)) == Plus(Embed(a), Embed(b))
  {
  }

  lemma EvalAdd(f: F1024 -> F1024, a: Residue, b: Residue)
    requires LinearMap(f)
    ensures Eval(f, AddR(a, b)) == Plus(Eval(f, a), Eval(f, b))
  {
    EmbedPlus(a.r0, b.r0);
    EmbedPlus(a.r1, b.r1);
    EmbedPlus(a.r2, b.r2);
    EmbedPlus(a.r3, b.r3);
    EmbedPlus(a.r4, b.r4);
    EmbedPlus(a.r5, b.r5);
    PlusLaws();
    SumPlus(Plus, f, Embed(a.r0), Embed(a.r1), Embed(a.r2), Embed(a.r3), Embed(a.r4), Embed(a.r5),
            Embed(b.r0), Embed(b.r1), Embed(b.r2), Embed(b.r3), Embed(b.r4), Embed(b.r5));
  }

  lemma PolyThree(n: nat, p: nat, q: nat, r: nat, x: F32, y: F32, z: F32)
    requires p < n && q < n && r < n
    ensures Poly(BLANK, Three(n, p, q, r, x, y, z))
         == AddR(AddR(Poly(BLANK, Single(n, p, x)), Poly(BLANK, Single(n, q, y))), Poly(BLANK, Single(n, r, z)))
  {
    AddRBlank(BLANK);
    PolyLinear(BLANK, BLANK, Single(n, p, x), Single(n, q, y));
    PolyLinear(BLANK, BLANK, Zip(Add, Single(n, p, x), Single(n, q, y)), Single(n, r, z));
  }

  /** If the register is empty, the three contributions cancel at every root. */
  lemma CancelAt(f: F1024 -> F1024, a: Residue, b: Residue, c: Residue)
    requires LinearMap(f) && AddR(AddR(a, b), c) == BLANK
    ensures Plus(Plus(Eval(f, a), Eval(f, b)), Eval(f, c)) == NOUGHT
  {
    EvalAdd(f, a, b);
    EvalAdd(f, AddR(a, b), c);
    EvalBlank(f, ZERO);
  }

  ghost predicate ThreePoints(f: F1024 -> F1024, g: F1024 -> F1024, h: F1024 -> F1024) {
    Point(f, 997) && Point(g, 998) && Point(h, 999)
  }

  /** The syndromes of one error in terms of the first. */
  lemma Contribution(f: F1024 -> F1024, g: F1024 -> F1024, h: F1024 -> F1024, n: nat, p: nat, x: F32, a: Residue)
    returns (u: F1024)
    requires ThreePoints(f, g, h) && p < n && a == Poly(BLANK, Single(n, p, x))
    ensures Eval(f, a) == u && Eval(g, a) == Shift(p, u) && Eval(h, a) == Shift(2 * p, u)
    ensures u == NOUGHT ==> x == ZERO
  {
    u := Shift(997 * p, Embed(x));
    ErrorSyndrome(f, 997, n, p, x, a, 997 * p);
    ErrorSyndrome(g, 998, n, p, x, a, 998 * p);
    ErrorSyndrome(h, 999, n, p, x, a, 999 * p);
    Multiplied(p, Embed(x), u);
    if u == NOUGHT {
      ShiftNonZero(997 * p, Embed(x));
    }
  }

  lemma Multiplied(p: nat, v: F1024, u: F1024)
    requires u == Shift(997 * p, v)
    ensures Shift(998 * p, v) == Shift(p, u) && Shift(999 * p, v) == Shift(2 * p, u)
  {
    ShiftShift(p, 997 * p, v);
    ShiftShift(2 * p, 997 * p, v);
  }

  lemma ThreeCancel(f: F1024 -> F1024, g: F1024 -> F1024, h: F1024 -> F1024, p: nat, q: nat, r: nat,
                    a: Residue, b: Residue, c: Residue, u: F1024, v: F1024, w: F1024)
    requires LinearMap(f) && LinearMap(g) && LinearMap(h) && AddR(AddR(a, b), c) == BLANK
    requires p < 1023 && q < 1023 && r < 1023 && p != q && q != r && p != r
    requires Eval(f, a) == u && Eval(g, a) == Shift(p, u) && Eval(h, a) == Shift(2 * p, u)
    requires Eval(f, b) == v && Eval(g, b) == Shift(q, v) && Eval(h, b) == Shift(2 * q, v)
    requires Eval(f, c) == w && Eval(g, c) == Shift(r, w) && Eval(h, c) == Shift(2 * r, w)
    ensures u == NOUGHT && v == NOUGHT && w == NOUGHT
  {
    CancelAt(f, a, b, c);
    CancelAt(g, a, b, c);
    CancelAt(h, a, b, c);
    Vandermonde(p, q, r, u, v, w);
  }

  lemma ThreeVanish(f: F1024 -> F1024, g: F1024 -> F1024, h: F1024 -> F1024, n: nat, p: nat, q: nat, r: nat,
                    x: F32, y: F32, z: F32)
    requires ThreePoints(f, g, h) && p < n && q < n && r < n && n <= 1023 && p != q && q != r && p != r
    requires Poly(BLANK, Three(n, p, q, r, x, y, z)) == BLANK
    ensures x == ZERO && y == ZERO && z == ZERO
  {
    var a, b, c := Poly(BLANK, Single(n, p, x)), Poly(BLANK, Single(n, q, y)), Poly(BLANK, Single(n, r, z));
    PolyThree(n, p, q, r, x, y, z);
    var u := Contribution(f, g, h, n, p, x, a);
    var v := Contribution(f, g, h, n, q, y, b);
    var w := Contribution(f, g, h, n, r, z, c);
    ThreeCancel(f, g, h, p, q, r, a, b, c, u, v, w);
  }

  lemma PolySame(u: seq<F32>, v: seq<F32>)
    requires |u| == |v| && Poly(START, u) == Poly(START, v)
    ensures Poly(BLANK, Zip(Add, u, v)) == BLANK
  {
    PolyLinear(START, START, u, v);
    AddRSelf(START);
    AddRSelf(Poly(START, u));
  }

  lemma AddRSelf(r: Residue)
    ensures AddR(r, r) == BLANK
  {
    AddZero(r.r0, r.r0);
    AddZero(r.r1, r.r1);
    AddZero(r.r2, r.r2);
    AddZero(r.r3, r.r3);
    AddZero(r.r4, r.r4);
    AddZero(r.r5, r.r5);
  }

  /** d holds x, y, z at three places and zeros elsewhere. */
  ghost predicate Placed(d: seq<F32>, i: nat, j: nat, k: nat, x: F32, y: F32, z: F32) {
    forall m {:trigger d[m]} :: 0 <= m < |d| ==> d[m] == if m == i then x else if m == j then y else if m == k then z else ZERO
  }

  /** The difference of two words that agree outside three places. */
  lemma DifferencePlaced(u: seq<F32>, v: seq<F32>, i: nat, j: nat, k: nat, d: seq<F32>)
    requires |u| == |v| && i < |u| && j < |u| && k < |u| && d == Zip(Add, u, v)
    requires forall m {:trigger u[m]} :: 0 <= m < |u| && m != i && m != j && m != k ==> u[m] == v[m]
    ensures Placed(d, i, j, k, Add(u[i], v[i]), Add(u[j], v[j]), Add(u[k], v[k]))
  {
    forall m | 0 <= m < |d| && m != i && m != j && m != k ensures d[m] == ZERO { AddZero(u[m], v[m]); }
  }

  lemma PlacedIsThree(n: nat, i: nat, j: nat, k: nat, x: F32, y: F32, z: F32, d: seq<F32>)
    requires |d| == n && i < n && j < n && k < n && i != j && j != k && i != k && Placed(d, i, j, k, x, y, z)
    ensures d == Three(n, n - 1 - i, n - 1 - j, n - 1 - k, x, y, z)
  {
    var e := Three(n, n - 1 - i, n - 1 - j, n - 1 - k, x, y, z);
    forall m | 0 <= m < n ensures d[m] == e[m] { ThreeAt(n, i, j, k, x, y, z, m); }
  }

  lemma ThreeAt(n: nat, i: nat, j: nat, k: nat, x: F32, y: F32, z: F32, m: nat)
    requires i < n && j < n && k < n && i != j && j != k && i != k && m < n
    ensures Three(n, n - 1 - i, n - 1 - j, n - 1 - k, x, y, z)[m]
         == if m == i then x else if m == j then y else if m == k then z else ZERO
  {
    AddZero(x, ZERO);
    AddZero(y, ZERO);
    AddZero(z, ZERO);
    AddZero(ZERO, ZERO);
  }

  lemma NoThree(n: nat, i: nat, j: nat, k: nat, x: F32, y: F32, z: F32, d: seq<F32>)
    requires |d| == n <= 1023 && i < n && j < n && k < n && i != j && j != k && i != k
    requires Placed(d, i, j, k, x, y, z) && Poly(BLANK, d) == BLANK
    ensures x == ZERO && y == ZERO && z == ZERO
  {
    PlacedIsThree(n, i, j, k, x, y, z, d);
    Points();
    ThreeVanish(Times997, Times998, Times999, n, n - 1 - i, n - 1 - j, n - 1 - k, x, y, z);
  }

  lemma SameWords(u: seq<F32>, v: seq<F32>, i: nat, j: nat, k: nat, d: seq<F32>)
    requires |u| == |v| == |d| <= 1023 && i < |u| && j < |u| && k < |u| && i != j && j != k && i != k
    requires Placed(d, i, j, k, Add(u[i], v[i]), Add(u[j], v[j]), Add(u[k], v[k])) && Poly(BLANK, d) == BLANK
    ensures u[i] == v[i] && u[j] == v[j] && u[k] == v[k]
  {
    NoThree(|d|, i, j, k, Add(u[i], v[i]), Add(u[j], v[j]), Add(u[k], v[k]), d);
    AddZero(u[i], v[i]);
    AddZero(u[j], v[j]);
    AddZero(u[k], v[k]);
  }

  /** Two words of at most 1023 symbols that differ in one, two or three places never have
      the same checksum. */
  lemma DetectsThreeErrors(u: seq<F32>, v: seq<F32>, i: nat, j: nat, k: nat)
    requires |u| == |v| <= 1023 && i < |u| && j < |u| && k < |u| && i != j && j != k && i != k
    requires forall m {:trigger u[m]} :: 0 <= m < |u| && m != i && m != j && m != k ==> u[m] == v[m]
    requires u[i] != v[i] || u[j] != v[j] || u[k] != v[k]
    ensures Poly(START, u) != Poly(START, v)
  {
    if Poly(START, u) == Poly(START, v) {
      PolySame(u, v);
      DifferencePlaced(u, v, i, j, k, Zip(Add, u, v));
      SameWords(u, v, i, j, k, Zip(Add, u, v));
    }
  }
}
